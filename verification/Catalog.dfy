// The export catalog: endpoint allocation, create/patch/delete, and its two files on disk.
// Each method of `CatalogStore` is proved equal to a function on `Store` values; what those
// functions guarantee over whole runs is in CatalogRuns.
module Catalog {
  import opened Wrappers
  import opened Model
  import opened Ids

  const FIRST_ENDPOINT_ID: U16 := 1

  datatype CatalogError =
    | NotFound(id: Uuid)
    | InvalidName
    | InvalidPrimary
    | AlreadyExists(id: Uuid)
    | EndpointExhausted
    | Io

  datatype CreateExport = CreateExport(
    exportId: Option<Uuid>,
    name: seq<Byte>,
    type_: DeviceType,
    primaryEntityId: string,
    linked: map<string, string>,
    areaId: Option<string>,
    enabled: bool)

  // `areaId == Some(None)` clears the area; `None` leaves it alone.
  datatype PatchExport = PatchExport(
    name: Option<seq<Byte>>,
    type_: Option<DeviceType>,
    primaryEntityId: Option<string>,
    linked: Option<map<string, string>>,
    areaId: Option<Option<string>>,
    enabled: Option<bool>)

  datatype Catalog = Catalog(byId: Exports, next: U16)

  // `bridge_config.json` (its counter) and `exports.json`, each replaced by one rename.
  datatype Disk = Disk(config: Option<U16>, exports: Option<seq<Export>>)

  datatype Store = Store(mem: Catalog, disk: Disk)

  // How far `persist` gets before an I/O error or a crash.
  datatype WriteOutcome = NothingWritten | ConfigOnly | BothWritten

  // ---------- Allocation ----------

  function Used(byId: Exports): set<U16> {
    set u | u in byId && byId[u].endpointId.Some? :: byId[u].endpointId.value
  }

  function Start(next: U16): U16 {
    if next == 0 then FIRST_ENDPOINT_ID else next
  }

  // Steps from one id to another around the cycle 1, 2, ..., 65535, 1.
  function CyclicDistance(from: U16, to: U16): int {
    if from <= to then to - from else to - from + U16_MAX
  }

  ghost predicate IsFirstFree(used: set<U16>, next: U16, id: U16) {
    && id != 0
    && id !in used
    && forall d: U16 :: d != 0 && CyclicDistance(Start(next), d) < CyclicDistance(Start(next), id) ==> d in used
  }

  // The assignable ids up to n.
  function Interval(n: U16): (r: set<U16>)
    ensures forall x: U16 :: x in r <==> 1 <= x <= n
    ensures |r| == n
  {
    if n == 0 then {} else Interval(n - 1) + {n}
  }

  lemma {:induction false} SubsetSize<T>(a: set<T>, b: set<T>)
    requires a <= b
    ensures |a| <= |b|
  {
    if a != {} {
      var x :| x in a;
      SubsetSize(a - {x}, b - {x});
    }
  }

  // Pigeonhole: fewer than 65535 ids in use leave one of 1..=65535 free.
  lemma SomeIdIsFree(used: set<U16>) returns (id: U16)
    requires |used| < U16_MAX
    ensures id != 0 && id !in used
  {
    if Interval(U16_MAX) <= used {
      SubsetSize(Interval(U16_MAX), used);
      assert false;
    }
    id :| id in Interval(U16_MAX) && id !in used;
  }

  lemma {:induction false} ClosestFree(used: set<U16>, next: U16, id: U16) returns (closest: U16)
    requires id != 0 && id !in used
    ensures IsFirstFree(used, next, closest)
    decreases CyclicDistance(Start(next), id)
  {
    if IsFirstFree(used, next, id) {
      closest := id;
    } else {
      var d: U16 :| d != 0 && CyclicDistance(Start(next), d) < CyclicDistance(Start(next), id) && d !in used;
      closest := ClosestFree(used, next, d);
    }
  }

  lemma FirstFreeExists(used: set<U16>, next: U16)
    requires |used| < U16_MAX
    ensures exists id: U16 :: IsFirstFree(used, next, id)
  {
    var id := SomeIdIsFree(used);
    var closest := ClosestFree(used, next, id);
  }

  // The cyclic order is total, so "the first unused id" names one id.
  lemma FirstFreeUnique(used: set<U16>, next: U16, a: U16, b: U16)
    requires IsFirstFree(used, next, a) && IsFirstFree(used, next, b)
    ensures a == b
  {
    assert CyclicDistance(Start(next), a) == CyclicDistance(Start(next), b);
  }

  ghost function FirstFree(used: set<U16>, next: U16): (id: U16)
    requires |used| < U16_MAX
    ensures IsFirstFree(used, next, id)
  {
    FirstFreeExists(used, next);
    var id: U16 :| IsFirstFree(used, next, id);
    id
  }

  function WrappingSucc(id: U16): U16 {
    (id + 1) % 0x1_0000
  }

  ghost function Alloc(c: Catalog): Result<U16, CatalogError> {
    if |Used(c.byId)| >= U16_MAX then Failure(EndpointExhausted) else Success(FirstFree(Used(c.byId), c.next))
  }

  // With only assignable ids in use, allocation fails exactly when all 65535 are taken.
  lemma AllocFailsIffFull(c: Catalog)
    requires 0 !in Used(c.byId)
    ensures Alloc(c).Failure? <==> forall id: U16 :: id != 0 ==> id in Used(c.byId)
  {
    hide FirstFree, Used;
    FullIff(Used(c.byId), U16_MAX);
  }

  lemma FullIff(used: set<U16>, n: U16)
    requires forall id :: id in used ==> 1 <= id <= n
    ensures |used| >= n <==> forall id: U16 :: 1 <= id <= n ==> id in used
  {
    if id: U16 :| 1 <= id <= n && id !in used {
      SubsetSize(used, Interval(n) - {id});
    } else {
      SubsetSize(Interval(n), used);
    }
  }

  // ---------- Create, patch, delete ----------

  predicate NameOk(name: seq<Byte>) {
    1 <= |name| <= 64
  }

  function NewExport(id: Uuid, body: CreateExport, ep: U16): Export {
    Export(
      id, body.name, body.type_, body.primaryEntityId, body.linked, body.areaId, body.enabled, Some(ep))
  }

  ghost function CreateOn(c: Catalog, body: CreateExport, newId: Uuid): (Result<Export, CatalogError>, Catalog) {
    var id := if body.exportId.Some? then body.exportId.value else newId;
    if !NameOk(body.name) then (Failure(InvalidName), c)
    else if body.primaryEntityId == "" then (Failure(InvalidPrimary), c)
    else if id in c.byId then (Failure(AlreadyExists(id)), c)
    else match Alloc(c)
      case Failure(e) => (Failure(e), c)
      case Success(ep) =>
        var exp := NewExport(id, body, ep);
        (Success(exp), Catalog(c.byId[id := exp], WrappingSucc(ep)))
  }

  // Fields are assigned one after another, so a rejected primary entity leaves the
  // new name and type behind in memory.
  function PatchFields(e: Export, body: PatchExport, newEndpoint: Option<U16>): (Option<CatalogError>, Export) {
    if body.name.Some? && !NameOk(body.name.value) then (Some(InvalidName), e)
    else
      var e1 := e.(name := if body.name.Some? then body.name.value else e.name,
                   type_ := if body.type_.Some? then body.type_.value else e.type_);
      if body.primaryEntityId == Some("") then (Some(InvalidPrimary), e1)
      else
        var primary := if body.primaryEntityId.Some? then body.primaryEntityId.value else e.primaryEntityId;
        (None, e1.(primaryEntityId := primary,
                   linked := if body.linked.Some? then body.linked.value else e.linked,
                   areaId := if body.areaId.Some? then body.areaId.value else e.areaId,
                   enabled := if body.enabled.Some? then body.enabled.value else e.enabled,
                   endpointId := if e.endpointId.None? then newEndpoint else e.endpointId))
  }

  ghost function PatchOn(c: Catalog, id: Uuid, body: PatchExport): (Result<Export, CatalogError>, Catalog) {
    if id !in c.byId then (Failure(NotFound(id)), c)
    else if c.byId[id].endpointId.None? && Alloc(c).Failure? then (Failure(EndpointExhausted), c)
    else
      var ep := if c.byId[id].endpointId.None? then Some(Alloc(c).value) else None;
      var (err, e) := PatchFields(c.byId[id], body, ep);
      var c' := Catalog(c.byId[id := e], if ep.Some? then WrappingSucc(ep.value) else c.next);
      if err.Some? then (Failure(err.value), c') else (Success(e), c')
  }

  function DeleteOn(c: Catalog, id: Uuid): (Result<Export, CatalogError>, Catalog) {
    if id !in c.byId then (Failure(NotFound(id)), c)
    else (Success(c.byId[id]), Catalog(c.byId - {id}, c.next))
  }

  function PersistOn(s: Store, io: WriteOutcome): Disk {
    match io
    case NothingWritten => s.disk
    case ConfigOnly => s.disk.(config := Some(s.mem.next))
    case BothWritten => Disk(Some(s.mem.next), Some(Listing(s.mem.byId)))
  }

  // A rejected request writes nothing; an accepted one fails when its files are not both written.
  function Commit(disk: Disk, outcome: (Result<Export, CatalogError>, Catalog), io: WriteOutcome):
    (Result<Export, CatalogError>, Store) {
    if outcome.0.Failure? then (outcome.0, Store(outcome.1, disk))
    else
      var disk' := PersistOn(Store(outcome.1, disk), io);
      (if io.BothWritten? then outcome.0 else Failure(Io), Store(outcome.1, disk'))
  }

  // Both files hold what memory holds.
  predicate Saved(s: Store) {
    s.disk == Disk(Some(s.mem.next), Some(Listing(s.mem.byId)))
  }

  ghost function StoreCreate(s: Store, body: CreateExport, newId: Uuid, io: WriteOutcome):
    (Result<Export, CatalogError>, Store) {
    Commit(s.disk, CreateOn(s.mem, body, newId), io)
  }

  ghost function StorePatch(s: Store, id: Uuid, body: PatchExport, io: WriteOutcome):
    (Result<Export, CatalogError>, Store) {
    Commit(s.disk, PatchOn(s.mem, id, body), io)
  }

  function StoreDelete(s: Store, id: Uuid, io: WriteOutcome): (Result<Export, CatalogError>, Store) {
    Commit(s.disk, DeleteOn(s.mem, id), io)
  }

  // ---------- Start-up ----------

  function SaturatingSucc(id: U16): U16 {
    if id == U16_MAX then id else id + 1
  }

  datatype Scanned = Scanned(next: U16, byId: Exports, missing: seq<Uuid>)

  // First pass over `exports.json`: keep assigned ids, push the counter past them,
  // remember exports without one.
  function Scan(start: U16, file: seq<Export>): Scanned {
    if file == [] then Scanned(start, map[], [])
    else
      var s := Scan(start, file[..|file| - 1]);
      var e := file[|file| - 1];
      Scanned(if e.endpointId.Some? then Max(s.next, SaturatingSucc(e.endpointId.value)) else s.next,
              s.byId[e.exportId := e],
              if e.endpointId.Some? then s.missing else s.missing + [e.exportId])
  }

  // Second pass: allocate for the exports that had none.
  ghost function Fill(c: Catalog, missing: seq<Uuid>): Result<Catalog, CatalogError>
    decreases missing
  {
    if missing == [] then Success(c)
    else match Alloc(c)
      case Failure(e) => Failure(e)
      case Success(ep) =>
        var id := missing[0];
        var byId := if id in c.byId then c.byId[id := c.byId[id].(endpointId := Some(ep))] else c.byId;
        Fill(Catalog(byId, WrappingSucc(ep)), missing[1..])
  }

  function CounterOnDisk(disk: Disk): U16 {
    if disk.config.Some? then Max(disk.config.value, FIRST_ENDPOINT_ID) else FIRST_ENDPOINT_ID
  }

  function FileOnDisk(disk: Disk): seq<Export> {
    if disk.exports.Some? then disk.exports.value else []
  }

  function ScanDisk(disk: Disk): Scanned {
    Scan(CounterOnDisk(disk), FileOnDisk(disk))
  }

  ghost function Load(disk: Disk): Result<Catalog, CatalogError> {
    var s := ScanDisk(disk);
    Fill(Catalog(s.byId, s.next), s.missing)
  }

  // ---------- The store itself ----------

  class CatalogStore {
    var byId: Exports
    var nextEndpoint: U16
    var disk: Disk

    ghost function Mem(): Catalog
      reads this
    {
      Catalog(byId, nextEndpoint)
    }

    ghost function Value(): Store
      reads this
    {
      Store(Mem(), disk)
    }

    constructor (disk: Disk)
      ensures Value() == Store(Catalog(map[], FIRST_ENDPOINT_ID), disk)
    {
      byId, nextEndpoint, this.disk := map[], FIRST_ENDPOINT_ID, disk;
    }

    static method LoadOrNew(disk: Disk) returns (r: Result<CatalogStore, CatalogError>)
      ensures r.Failure? ==> Load(disk) == Failure(r.error)
      ensures r.Success? ==> fresh(r.value) && Load(disk) == Success(r.value.Mem()) && r.value.disk == disk
    {
      var store := new CatalogStore(disk);
      if disk.config.Some? {
        store.nextEndpoint := Max(disk.config.value, FIRST_ENDPOINT_ID);
      }
      var missing: seq<Uuid> := [];
      if disk.exports.Some? {
        var file := disk.exports.value;
        var i := 0;
        while i < |file|
          invariant 0 <= i <= |file|
          invariant Scan(CounterOnDisk(disk), file[..i]) == Scanned(store.nextEndpoint, store.byId, missing)
          invariant store.disk == disk
        {
          var e := file[i];
          assert file[..i + 1][..i] == file[..i];
          if e.endpointId.Some? {
            store.nextEndpoint := Max(store.nextEndpoint, SaturatingSucc(e.endpointId.value));
          } else {
            missing := missing + [e.exportId];
          }
          store.byId := store.byId[e.exportId := e];
          i := i + 1;
        }
        assert file[..i] == file;
      }
      assert ScanDisk(disk) == Scanned(store.nextEndpoint, store.byId, missing);
      var j := 0;
      while j < |missing|
        invariant 0 <= j <= |missing|
        invariant Fill(store.Mem(), missing[j..]) == Load(disk)
        invariant store.disk == disk
      {
        assert missing[j..][1..] == missing[j + 1..];
        var ep := store.AllocEndpoint();
        if ep.Failure? {
          return Failure(ep.error);
        }
        if missing[j] in store.byId {
          store.byId := store.byId[missing[j] := store.byId[missing[j]].(endpointId := Some(ep.value))];
        }
        j := j + 1;
      }
      r := Success(store);
    }

    // The wrapping search. Its measure is the distance left to the first free id,
    // which exists by the pigeonhole argument of SomeIdIsFree.
    method AllocEndpoint() returns (r: Result<U16, CatalogError>)
      modifies this`nextEndpoint
      ensures r == Alloc(old(Mem()))
      ensures r.Failure? ==> nextEndpoint == old(nextEndpoint)
      ensures r.Success? ==>
        IsFirstFree(Used(byId), old(nextEndpoint), r.value) && nextEndpoint == WrappingSucc(r.value)
    {
      var used := Used(byId);
      if |used| >= U16_MAX {
        return Failure(EndpointExhausted);
      }
      ghost var goal := FirstFree(used, nextEndpoint);
      while true
        invariant IsFirstFree(used, nextEndpoint, goal)
        decreases CyclicDistance(Start(nextEndpoint), goal)
      {
        if nextEndpoint == 0 {
          nextEndpoint := FIRST_ENDPOINT_ID;
        }
        var candidate := nextEndpoint;
        nextEndpoint := WrappingSucc(nextEndpoint);
        if candidate !in used {
          assert CyclicDistance(candidate, candidate) == 0;
          assert candidate == goal;
          return Success(candidate);
        }
      }
    }

    method Persist(io: WriteOutcome) returns (ok: bool)
      modifies this`disk
      ensures disk == PersistOn(old(Value()), io) && ok == io.BothWritten?
    {
      if io.NothingWritten? {
        return false;
      }
      disk := disk.(config := Some(nextEndpoint));
      if io.ConfigOnly? {
        return false;
      }
      disk := disk.(exports := Some(Listing(byId)));
      return true;
    }

    method Create(body: CreateExport, newId: Uuid, io: WriteOutcome) returns (r: Result<Export, CatalogError>)
      modifies this
      ensures (r, Value()) == StoreCreate(old(Value()), body, newId, io)
    {
      if !NameOk(body.name) {
        return Failure(InvalidName);
      }
      if body.primaryEntityId == "" {
        return Failure(InvalidPrimary);
      }
      var id := if body.exportId.Some? then body.exportId.value else newId;
      if id in byId {
        return Failure(AlreadyExists(id));
      }
      var ep := AllocEndpoint();
      if ep.Failure? {
        return Failure(ep.error);
      }
      var exp := NewExport(id, body, ep.value);
      byId := byId[id := exp];
      var ok := Persist(io);
      r := if ok then Success(exp) else Failure(Io);
    }

    // The assignments to one map entry, in source order, up to the first rejected field.
    static method PatchEntry(entry: Export, body: PatchExport, newEndpoint: Option<U16>)
      returns (err: Option<CatalogError>, exp: Export)
      ensures (err, exp) == PatchFields(entry, body, newEndpoint)
    {
      exp := entry;
      if body.name.Some? {
        if !NameOk(body.name.value) {
          return Some(InvalidName), exp;
        }
        exp := exp.(name := body.name.value);
      }
      if body.type_.Some? {
        exp := exp.(type_ := body.type_.value);
      }
      if body.primaryEntityId.Some? {
        if body.primaryEntityId.value == "" {
          return Some(InvalidPrimary), exp;
        }
        exp := exp.(primaryEntityId := body.primaryEntityId.value);
      }
      if body.linked.Some? {
        exp := exp.(linked := body.linked.value);
      }
      if body.areaId.Some? {
        exp := exp.(areaId := body.areaId.value);
      }
      if body.enabled.Some? {
        exp := exp.(enabled := body.enabled.value);
      }
      if exp.endpointId.None? {
        exp := exp.(endpointId := newEndpoint);
      }
      err := None;
    }

    method Patch(id: Uuid, body: PatchExport, io: WriteOutcome) returns (r: Result<Export, CatalogError>)
      modifies this
      ensures (r, Value()) == StorePatch(old(Value()), id, body, io)
    {
      if id !in byId {
        return Failure(NotFound(id));
      }
      var newEndpoint := None;
      if byId[id].endpointId.None? {
        var ep := AllocEndpoint();
        if ep.Failure? {
          return Failure(ep.error);
        }
        newEndpoint := Some(ep.value);
      }
      var err, exp := PatchEntry(byId[id], body, newEndpoint);
      byId := byId[id := exp];
      if err.Some? {
        return Failure(err.value);
      }
      var ok := Persist(io);
      r := if ok then Success(exp) else Failure(Io);
    }

    method Delete(id: Uuid, io: WriteOutcome) returns (r: Result<Export, CatalogError>)
      modifies this
      ensures (r, Value()) == StoreDelete(old(Value()), id, io)
    {
      if id !in byId {
        return Failure(NotFound(id));
      }
      var exp := byId[id];
      byId := byId - {id};
      var ok := Persist(io);
      r := if ok then Success(exp) else Failure(Io);
    }
  }
}
