// The slot table: which exports are bridged, in what order, and the table-wide operations.
module SlotTable {
  import opened Wrappers
  import opened Model
  import opened OnOffMap
  import opened WindowCovering
  import opened Slots

  const AGGREGATOR_ENDPOINT_ID: U16 := 1

  // ---------- Choosing and ordering exports ----------

  function SortEndpoint(e: Export): U16 {
    if e.endpointId.Some? then e.endpointId.value else U16_MAX
  }

  predicate Before(a: Export, b: Export) {
    SortEndpoint(a) < SortEndpoint(b) || (SortEndpoint(a) == SortEndpoint(b) && a.exportId < b.exportId)
  }

  function Insert(e: Export, s: seq<Export>): seq<Export> {
    if s == [] || !Before(s[0], e) then [e] + s else [s[0]] + Insert(e, s[1..])
  }

  // Stable sort by (endpoint id, export id).
  function Sort(s: seq<Export>): seq<Export> {
    if s == [] then [] else Insert(s[0], Sort(s[1..]))
  }

  function Candidates(exports: seq<Export>): seq<Export> {
    if exports == [] then []
    else if IsMatterBridgedExport(exports[0]) then [exports[0]] + Candidates(exports[1..])
    else Candidates(exports[1..])
  }

  // Catalog endpoint id + 1, checked.
  function MatterEndpoint(e: Export): Option<U16> {
    if e.endpointId.None? || e.endpointId.value == U16_MAX then None else Some(e.endpointId.value + 1)
  }

  datatype Placed = Placed(exp: Export, endpoint: U16)

  predicate Taken(placed: seq<Placed>, ep: U16) {
    exists i :: 0 <= i < |placed| && placed[i].endpoint == ep
  }

  // An export without a usable endpoint, or with one already taken, is not bridged.
  function Place(sorted: seq<Export>): seq<Placed> {
    if sorted == [] then []
    else
      var placed := Place(sorted[..|sorted| - 1]);
      var e := sorted[|sorted| - 1];
      var ep := MatterEndpoint(e);
      if ep.None? || ep.value <= AGGREGATOR_ENDPOINT_ID || Taken(placed, ep.value) then placed
      else placed + [Placed(e, ep.value)]
  }

  function Bridged(exports: seq<Export>): seq<Placed> {
    Place(Sort(Candidates(exports)))
  }

  // ---------- Lookups ----------

  function FindExport(slots: seq<Slot>, id: Uuid): (r: Option<nat>)
    ensures r.Some? ==> r.value < |slots| && slots[r.value].exp.exportId == id
    ensures r.Some? ==> forall j :: 0 <= j < r.value ==> slots[j].exp.exportId != id
    ensures r.None? ==> forall j :: 0 <= j < |slots| ==> slots[j].exp.exportId != id
  {
    if slots == [] then None
    else if slots[0].exp.exportId == id then Some(0)
    else match FindExport(slots[1..], id)
      case None => None
      case Some(i) => Some(i + 1)
  }

  function FindEndpoint(slots: seq<Slot>, ep: U16): (r: Option<nat>)
    ensures r.Some? ==> r.value < |slots| && slots[r.value].matterEndpoint == ep
    ensures r.Some? ==> forall j :: 0 <= j < r.value ==> slots[j].matterEndpoint != ep
    ensures r.None? ==> forall j :: 0 <= j < |slots| ==> slots[j].matterEndpoint != ep
  {
    if slots == [] then None
    else if slots[0].matterEndpoint == ep then Some(0)
    else match FindEndpoint(slots[1..], ep)
      case None => None
      case Some(i) => Some(i + 1)
  }

  function PreviousSlot(slots: seq<Slot>, id: Uuid): Option<Slot> {
    var i := FindExport(slots, id);
    if i.None? then None else Some(slots[i.value])
  }

  // ---------- Rebuild ----------

  type Seeds = Uuid -> Seed

  function RebuildPlaced(p: Placed, previous: seq<Slot>, seeds: Seeds): Slot {
    Rebuild(p.exp, p.endpoint, PreviousSlot(previous, p.exp.exportId), seeds(p.exp.exportId))
  }

  function RebuildAll(placed: seq<Placed>, previous: seq<Slot>, seeds: Seeds): seq<Slot> {
    seq(|placed|, i requires 0 <= i < |placed| => RebuildPlaced(placed[i], previous, seeds))
  }

  function RebuildTable(exports: seq<Export>, previous: seq<Slot>, seeds: Seeds): seq<Slot> {
    RebuildAll(Bridged(exports), previous, seeds)
  }

  function Surfaces(slots: seq<Slot>): seq<Surface> {
    seq(|slots|, i requires 0 <= i < |slots| => SurfaceOf(slots[i]))
  }

  predicate AnyPending(slots: seq<Slot>) {
    exists i :: 0 <= i < |slots| && slots[i].pending != {}
  }

  // Endpoints of the whole node: root, aggregator, then the slots.
  function NodeEndpoints(slots: seq<Slot>): seq<U16> {
    [0, AGGREGATOR_ENDPOINT_ID] + seq(|slots|, i requires 0 <= i < |slots| => slots[i].matterEndpoint)
  }

  // ---------- HA pushes and controller actions ----------

  function PushTable(slots: seq<Slot>, id: Uuid, states: seq<HaStateValue>): seq<Slot> {
    var i := FindExport(slots, id);
    if i.None? then slots else slots[i.value := SlotAfterPush(slots[i.value], states)]
  }

  // The slot an action reaches, if some slot at the endpoint accepts it.
  function Target(slots: seq<Slot>, ep: U16, a: Action): (r: Option<nat>)
    ensures r.Some? ==> r.value < |slots| && Accepts(slots[r.value], a) && slots[r.value].matterEndpoint == ep
  {
    var i := FindEndpoint(slots, ep);
    if i.Some? && Accepts(slots[i.value], a) then i else None
  }

  function ActTable(slots: seq<Slot>, ep: U16, a: Action): seq<Slot> {
    var i := Target(slots, ep, a);
    if i.None? then slots else slots[i.value := SlotAfterAction(slots[i.value], a)]
  }

  function ActRequests(slots: seq<Slot>, ep: U16, a: Action): seq<CommandRequest> {
    var i := Target(slots, ep, a);
    if i.None? then [] else [RequestFor(SlotAfterAction(slots[i.value], a), a)]
  }

  // ---------- Draining reports ----------

  datatype Attribute =
    | OnOffAttr | StateValueAttr | OccupancyAttr
    | CurrentLiftAttr | TargetLiftAttr | OperationalStatusAttr
    | NodeLabelAttr | DeviceTypeListAttr

  datatype Notice = Notice(endpoint: U16, attribute: Attribute)

  function FunctionalAttributes(k: SlotKind): seq<Attribute> {
    match k
    case OnOffKind(_) => [OnOffAttr]
    case ContactKind(_) => [StateValueAttr]
    case MotionKind(_) => [OccupancyAttr]
    case CoverKind(_, _, _) => [CurrentLiftAttr, TargetLiftAttr, OperationalStatusAttr]
  }

  function NoticesOf(s: Slot): seq<Notice> {
    var attributes :=
      (if Functional in s.pending then FunctionalAttributes(s.kind) else [])
      + (if NodeLabel in s.pending then [NodeLabelAttr] else [])
      + (if Descriptor in s.pending then [DeviceTypeListAttr] else []);
    seq(|attributes|, i requires 0 <= i < |attributes| => Notice(s.matterEndpoint, attributes[i]))
  }

  function Notices(slots: seq<Slot>): seq<Notice> {
    if slots == [] then [] else Notices(slots[..|slots| - 1]) + NoticesOf(slots[|slots| - 1])
  }

  function DrainTable(slots: seq<Slot>): seq<Slot> {
    seq(|slots|, i requires 0 <= i < |slots| => slots[i].(pending := {}))
  }

  // ---------- What the notices are about ----------

  datatype Value = Flag(b: bool) | Percent(p: int) | Movement(m: WindowCovering.Motion)
    | Octets(s: seq<Byte>) | Device(t: ConcreteType)

  // The value an attribute has in a reading, if it is there at all.
  function ValueIn(r: Reading, a: Attribute): Option<Value> {
    match (r, a)
    case (OnOffReading(on), OnOffAttr) => Some(Flag(on))
    case (StateValueReading(closed), StateValueAttr) => Some(Flag(closed))
    case (OccupancyReading(occupied), OccupancyAttr) => Some(Flag(occupied))
    case (LiftReading(current, _, _), CurrentLiftAttr) => Some(Percent(current))
    case (LiftReading(_, target, _), TargetLiftAttr) => Some(Percent(target))
    case (LiftReading(_, _, status), OperationalStatusAttr) => Some(Movement(status))
    case _ => None
  }

  // What a controller reads for an attribute of a slot.
  function ValueAt(s: Slot, a: Attribute): Option<Value> {
    match a
    case NodeLabelAttr => Some(Octets(Label(s)))
    case DeviceTypeListAttr => Some(Device(DeviceTypeOf(s.exp.type_)))
    case _ => ValueIn(Read(s.kind), a)
  }

  // The report bit an attribute hangs on.
  function BitOf(a: Attribute): Report {
    match a
    case NodeLabelAttr => NodeLabel
    case DeviceTypeListAttr => Descriptor
    case _ => Functional
  }

  // A slot's notices are exactly the attributes it has whose bit is pending, at its endpoint.
  lemma NoticesOfIff(s: Slot, n: Notice)
    ensures n in NoticesOf(s) <==>
      n.endpoint == s.matterEndpoint && ValueAt(s, n.attribute).Some? && BitOf(n.attribute) in s.pending
  {
    hide HaPositionToPercent100ths, OperationalStatus, Label, DeviceTypeOf;
    var functional := FunctionalAttributes(s.kind);
    assert n.attribute in functional <==>
      ValueAt(s, n.attribute).Some? && n.attribute != NodeLabelAttr && n.attribute != DeviceTypeListAttr;
    var attributes :=
      (if Functional in s.pending then functional else [])
      + (if NodeLabel in s.pending then [NodeLabelAttr] else [])
      + (if Descriptor in s.pending then [DeviceTypeListAttr] else []);
    var r := NoticesOf(s);
    assert forall i :: 0 <= i < |r| ==> r[i] == Notice(s.matterEndpoint, attributes[i]);
    if n.endpoint == s.matterEndpoint && n.attribute in attributes {
      var i :| 0 <= i < |attributes| && attributes[i] == n.attribute;
      assert r[i] == n;
    }
  }

  // A drain lists exactly the notices of its slots.
  lemma {:induction false} NoticesIff(slots: seq<Slot>, n: Notice)
    ensures n in Notices(slots) <==> exists i :: 0 <= i < |slots| && n in NoticesOf(slots[i])
  {
    hide NoticesOf;
    if slots != [] {
      var init, last := slots[..|slots| - 1], slots[|slots| - 1];
      NoticesIff(init, n);
      assert forall i :: 0 <= i < |init| ==> init[i] == slots[i];
      if i :| 0 <= i < |slots| && n in NoticesOf(slots[i]) {
        assert i < |init| ==> n in NoticesOf(init[i]);
      }
    }
  }

  // The drain goes through the slots in order and lists nothing twice.
  lemma {:induction false} NoticesInOrder(slots: seq<Slot>)
    requires Ascending(slots)
    ensures forall i, j :: 0 <= i < j < |Notices(slots)| ==>
      Notices(slots)[i].endpoint <= Notices(slots)[j].endpoint && Notices(slots)[i] != Notices(slots)[j]
  {
    hide NoticesOf;
    if slots != [] {
      var init, last := slots[..|slots| - 1], slots[|slots| - 1];
      NoticesInOrder(init);
      NoticesOfOnce(last);
      forall n | n in Notices(init)
        ensures n.endpoint < last.matterEndpoint
      {
        NoticesIff(init, n);
        var i :| 0 <= i < |init| && n in NoticesOf(init[i]);
        NoticesOfIff(init[i], n);
        assert init[i] == slots[i];
      }
    }
  }

  lemma NoticesOfOnce(s: Slot)
    ensures forall i, j :: 0 <= i < j < |NoticesOf(s)| ==> NoticesOf(s)[i] != NoticesOf(s)[j]
    ensures forall i :: 0 <= i < |NoticesOf(s)| ==> NoticesOf(s)[i].endpoint == s.matterEndpoint
  {
  }

  // Whatever is pending on a slot is listed by the drain.
  lemma PendingIsListed(slots: seq<Slot>, i: nat, a: Attribute)
    requires i < |slots| && ValueAt(slots[i], a).Some? && BitOf(a) in slots[i].pending
    ensures Notice(slots[i].matterEndpoint, a) in Notices(slots)
  {
    hide ValueAt, Notices, NoticesOf;
    var n := Notice(slots[i].matterEndpoint, a);
    NoticesOfIff(slots[i], n);
    NoticesIff(slots, n);
  }

  // ---------- The table is canonical ----------

  ghost predicate Ascending(slots: seq<Slot>) {
    forall i, j :: 0 <= i < j < |slots| ==> slots[i].matterEndpoint < slots[j].matterEndpoint
  }

  ghost predicate SortedByKey(s: seq<Export>) {
    forall i, j :: 0 <= i < j < |s| ==> !Before(s[j], s[i])
  }

  lemma {:induction false} InsertSorts(e: Export, s: seq<Export>)
    requires SortedByKey(s)
    ensures SortedByKey(Insert(e, s)) && multiset(Insert(e, s)) == multiset(s) + multiset{e}
  {
    if s != [] && Before(s[0], e) {
      InsertSorts(e, s[1..]);
      var t := Insert(e, s[1..]);
      assert s == [s[0]] + s[1..];
      forall x | x in t
        ensures !Before(x, s[0])
      {
        assert x in multiset(t);
        assert x == e || x in s[1..];
      }
    } else {
      forall x | x in s
        ensures !Before(x, e)
      {
      }
    }
  }

  lemma {:induction false} SortSorts(s: seq<Export>)
    ensures SortedByKey(Sort(s)) && multiset(Sort(s)) == multiset(s)
  {
    if s != [] {
      SortSorts(s[1..]);
      InsertSorts(s[0], Sort(s[1..]));
      assert s == [s[0]] + s[1..];
    }
  }

  lemma {:induction false} CandidatesMembers(exports: seq<Export>)
    ensures forall e :: e in Candidates(exports) <==> e in exports && IsMatterBridgedExport(e)
    ensures DistinctIds(exports) ==> DistinctIds(Candidates(exports))
  {
    if exports != [] {
      CandidatesMembers(exports[1..]);
      assert exports == [exports[0]] + exports[1..];
      if DistinctIds(exports) {
        var c := Candidates(exports[1..]);
        forall i | 0 <= i < |c|
          ensures c[i].exportId != exports[0].exportId
        {
          assert c[i] in exports[1..];
        }
      }
    }
  }

  lemma {:induction false} DistinctByMultiset(a: seq<Export>, b: seq<Export>)
    requires multiset(a) == multiset(b) && DistinctIds(a)
    ensures DistinctIds(b)
  {
    forall i, j | 0 <= i < j < |b|
      ensures b[i].exportId != b[j].exportId
    {
      if b[i].exportId == b[j].exportId {
        assert b[i] in multiset(a) && b[j] in multiset(a);
        var x :| 0 <= x < |a| && a[x] == b[i];
        var y :| 0 <= y < |a| && a[y] == b[j];
        assert x == y;
        TwiceInMultiset(b, i, j);
        OnceInMultiset(a, x);
      }
    }
  }

  lemma TwiceInMultiset(s: seq<Export>, i: nat, j: nat)
    requires i < j < |s| && s[i] == s[j]
    ensures multiset(s)[s[i]] >= 2
  {
    assert s == s[..j] + [s[j]] + s[j + 1..];
    assert s[i] in s[..j];
  }

  lemma OnceInMultiset(s: seq<Export>, i: nat)
    requires i < |s| && DistinctIds(s)
    ensures multiset(s)[s[i]] == 1
  {
    assert s == s[..i] + [s[i]] + s[i + 1..];
    assert s[i] !in s[..i] && s[i] !in s[i + 1..];
  }

  lemma SortedCandidates(exports: seq<Export>)
    ensures SortedByKey(Sort(Candidates(exports)))
    ensures forall e :: e in Sort(Candidates(exports)) <==> e in exports && IsMatterBridgedExport(e)
    ensures DistinctIds(exports) ==> DistinctIds(Sort(Candidates(exports)))
  {
    var c := Candidates(exports);
    CandidatesMembers(exports);
    SortSorts(c);
    forall e
      ensures e in Sort(c) <==> e in c
    {
      assert e in multiset(Sort(c)) <==> e in multiset(c);
    }
    if DistinctIds(exports) {
      DistinctByMultiset(c, Sort(c));
    }
  }

  lemma HasMember(s: seq<Export>)
    ensures s != [] ==> exists e :: e in s
  {
    if s != [] {
      assert s[0] in s;
    }
  }

  // Two strictly sorted sequences with the same elements are the same sequence.
  lemma {:induction false} SortedUnique(a: seq<Export>, b: seq<Export>)
    requires SortedByKey(a) && SortedByKey(b) && DistinctIds(a) && DistinctIds(b)
    requires forall e :: e in a <==> e in b
    ensures a == b
  {
    if a == [] || b == [] {
      HasMember(a);
      HasMember(b);
    } else {
      assert a[0] in b && b != [] && b[0] in a;
      var i :| 0 <= i < |b| && b[i] == a[0];
      var j :| 0 <= j < |a| && a[j] == b[0];
      assert a[0] == b[0];
      forall e
        ensures e in a[1..] <==> e in b[1..]
      {
        assert e in a[1..] <==> e in a && e != a[0] by { MemberOfTail(a, e); }
        assert e in b[1..] <==> e in b && e != b[0] by { MemberOfTail(b, e); }
      }
      SortedUnique(a[1..], b[1..]);
      assert a == [a[0]] + a[1..] && b == [b[0]] + b[1..];
    }
  }

  lemma MemberOfTail(s: seq<Export>, e: Export)
    requires s != [] && DistinctIds(s)
    ensures e in s[1..] <==> e in s && e != s[0]
  {
    assert s == [s[0]] + s[1..];
  }

  // The order the catalog is listed in does not matter.
  lemma OrderIndependent(xs: seq<Export>, ys: seq<Export>)
    requires DistinctIds(xs) && DistinctIds(ys)
    requires forall e :: e in xs <==> e in ys
    ensures Bridged(xs) == Bridged(ys)
  {
    SortedCandidates(xs);
    SortedCandidates(ys);
    SortedUnique(Sort(Candidates(xs)), Sort(Candidates(ys)));
  }

  predicate Usable(e: Export) {
    e.endpointId.Some? && 1 <= e.endpointId.value < U16_MAX
  }

  ghost predicate PlacedAscending(placed: seq<Placed>) {
    && (forall i :: 0 <= i < |placed| ==> placed[i].endpoint >= 2)
    && forall i, j :: 0 <= i < j < |placed| ==> placed[i].endpoint < placed[j].endpoint
  }

  lemma {:induction false} PlacedAreUsable(sorted: seq<Export>)
    ensures forall p :: p in Place(sorted) ==>
      p.exp in sorted && Usable(p.exp) && p.exp.endpointId == Some(p.endpoint - 1)
  {
    if sorted != [] {
      PlacedAreUsable(sorted[..|sorted| - 1]);
    }
  }

  lemma {:induction false} UsableAreTaken(sorted: seq<Export>, e: Export)
    requires e in sorted && Usable(e)
    ensures Taken(Place(sorted), e.endpointId.value + 1)
  {
    var init, last := sorted[..|sorted| - 1], sorted[|sorted| - 1];
    assert sorted == init + [last];
    var before, placed := Place(init), Place(sorted);
    if e in init {
      UsableAreTaken(init, e);
      var i :| 0 <= i < |before| && before[i].endpoint == e.endpointId.value + 1;
      assert placed[i] == before[i];
    } else if !Taken(before, e.endpointId.value + 1) {
      assert placed[|before|].endpoint == e.endpointId.value + 1;
    }
  }

  lemma {:induction false} PlaceAscends(sorted: seq<Export>)
    requires SortedByKey(sorted)
    ensures PlacedAscending(Place(sorted))
  {
    if sorted != [] {
      var init, e := sorted[..|sorted| - 1], sorted[|sorted| - 1];
      PlaceAscends(init);
      PlacedAreUsable(init);
      var before := Place(init);
      forall i | 0 <= i < |before|
        ensures before[i].endpoint - 1 <= SortEndpoint(e)
      {
        assert before[i] in before;
        var k :| 0 <= k < |init| && init[k] == before[i].exp;
        assert !Before(sorted[|sorted| - 1], sorted[k]);
      }
    }
  }

  lemma PlaceFacts(sorted: seq<Export>)
    requires SortedByKey(sorted)
    ensures PlacedAscending(Place(sorted))
    ensures forall p :: p in Place(sorted) ==>
      p.exp in sorted && Usable(p.exp) && p.exp.endpointId == Some(p.endpoint - 1)
    ensures forall e :: e in sorted && Usable(e) ==> Taken(Place(sorted), e.endpointId.value + 1)
  {
    PlaceAscends(sorted);
    PlacedAreUsable(sorted);
    forall e | e in sorted && Usable(e)
      ensures Taken(Place(sorted), e.endpointId.value + 1)
    {
      UsableAreTaken(sorted, e);
    }
  }

  lemma {:induction false} PlaceSmallest(sorted: seq<Export>, p: Placed, e: Export)
    requires SortedByKey(sorted) && p in Place(sorted)
    requires e in sorted && Usable(e) && e.endpointId == p.exp.endpointId
    ensures p.exp.exportId <= e.exportId
  {
    var init, last := sorted[..|sorted| - 1], sorted[|sorted| - 1];
    assert sorted == init + [last];
    PlacedAreUsable(init);
    PlacedAreUsable(sorted);
    if p in Place(init) {
      if e in init {
        PlaceSmallest(init, p, e);
      } else {
        var k :| 0 <= k < |init| && init[k] == p.exp;
        assert !Before(sorted[|sorted| - 1], sorted[k]);
      }
    } else if e in init {
      UsableAreTaken(init, e);
    }
  }

  // An export is bridged exactly when it is enabled, has an id in 1..=65534, and no other such
  // export with a smaller export id claims the same endpoint; its Matter endpoint is the id + 1.
  lemma BridgedIff(exports: seq<Export>, e: Export, ep: U16)
    requires DistinctIds(exports)
    ensures Placed(e, ep) in Bridged(exports) <==>
      && e in exports && IsMatterBridgedExport(e) && Usable(e) && ep == e.endpointId.value + 1
      && forall x :: x in exports && IsMatterBridgedExport(x) && x.endpointId == e.endpointId ==>
        e.exportId <= x.exportId
  {
    hide Place, Sort, Candidates, Before, SortedByKey, IsMatterBridgedExport, PlacedAscending;
    var sorted := Sort(Candidates(exports));
    SortedCandidates(exports);
    PlaceFacts(sorted);
    var placed := Place(sorted);
    if Placed(e, ep) in placed {
      forall x | x in exports && IsMatterBridgedExport(x) && x.endpointId == e.endpointId
        ensures e.exportId <= x.exportId
      {
        PlaceSmallest(sorted, Placed(e, ep), x);
      }
    } else if e in sorted && Usable(e) && ep == e.endpointId.value + 1 {
      var p := TakenBy(placed, ep);
      PlaceSmallest(sorted, p, e);
      SameIdSameExport(sorted, p.exp, e);
      assert p.exp != e;
    }
  }

  lemma TakenBy(placed: seq<Placed>, ep: U16) returns (p: Placed)
    requires Taken(placed, ep)
    ensures p in placed && p.endpoint == ep
  {
    var i :| 0 <= i < |placed| && placed[i].endpoint == ep;
    p := placed[i];
  }

  lemma SameIdSameExport(s: seq<Export>, a: Export, b: Export)
    requires DistinctIds(s) && a in s && b in s
    ensures a.exportId == b.exportId ==> a == b
  {
  }

  lemma PlacedIdsDistinct(sorted: seq<Export>, i: nat, j: nat)
    requires SortedByKey(sorted) && DistinctIds(sorted) && i < j < |Place(sorted)|
    ensures Place(sorted)[i].exp.exportId != Place(sorted)[j].exp.exportId
  {
    PlaceFacts(sorted);
    assert Place(sorted)[i] in Place(sorted) && Place(sorted)[j] in Place(sorted);
    SameIdSameExport(sorted, Place(sorted)[i].exp, Place(sorted)[j].exp);
  }

  lemma RebuiltPlaces(exports: seq<Export>, previous: seq<Slot>, seeds: Seeds)
    ensures var slots, placed := RebuildTable(exports, previous, seeds), Bridged(exports);
      |slots| == |placed| &&
      forall i :: 0 <= i < |slots| ==> slots[i].exp == placed[i].exp && slots[i].matterEndpoint == placed[i].endpoint
  {
  }

  // The surfaces of the exports to be bridged, before any slot is built.
  function PlacedSurfaces(placed: seq<Placed>): seq<Surface> {
    seq(|placed|, i requires 0 <= i < |placed| =>
      Surface(placed[i].endpoint, placed[i].exp.exportId, DeviceTypeOf(placed[i].exp.type_)))
  }

  // A rebuilt table's surface depends on the exports alone, not on the table it replaces.
  lemma SurfacesFromExports(exports: seq<Export>, previous: seq<Slot>, seeds: Seeds)
    ensures Surfaces(RebuildTable(exports, previous, seeds)) == PlacedSurfaces(Bridged(exports))
  {
    hide Rebuild, Place, Sort, Candidates;
    RebuiltPlaces(exports, previous, seeds);
  }

  lemma SurfaceAt(a: seq<Slot>, b: seq<Slot>, i: nat)
    requires i < |a|
    ensures Surfaces(a) == Surfaces(b) ==> i < |b| && SurfaceOf(a[i]) == SurfaceOf(b[i])
  {
    assert Surfaces(a)[i] == SurfaceOf(a[i]) && |Surfaces(b)| == |b|;
    assert forall j :: 0 <= j < |b| ==> Surfaces(b)[j] == SurfaceOf(b[j]);
  }

  lemma NodeEndpointsIff(slots: seq<Slot>)
    ensures forall ep :: ep in NodeEndpoints(slots) <==> ep <= 1 || FindEndpoint(slots, ep).Some?
  {
    var r := NodeEndpoints(slots);
    assert forall i :: 0 <= i < |slots| ==> r[i + 2] == slots[i].matterEndpoint;
    forall ep
      ensures ep in r <==> ep <= 1 || FindEndpoint(slots, ep).Some?
    {
      assert r[0] == 0 && r[1] == 1;
      if i :| 0 <= i < |slots| && slots[i].matterEndpoint == ep {
        assert r[i + 2] == ep;
      }
    }
  }

  // An export that stays bridged but changes to a device controllers can tell apart: the
  // surface changes, and its slot announces the new device type with a moved data version.
  lemma ClassChangeIsReported(exports: seq<Export>, previous: seq<Slot>, seeds: Seeds, i: nat, j: nat)
    requires DistinctIds(exports) && i < |previous| && FindExport(previous, previous[i].exp.exportId) == Some(i)
    requires j < |RebuildTable(exports, previous, seeds)|
    requires RebuildTable(exports, previous, seeds)[j].exp.exportId == previous[i].exp.exportId
    requires !SameDeviceClass(previous[i].exp.type_, RebuildTable(exports, previous, seeds)[j].exp.type_)
    ensures var slots := RebuildTable(exports, previous, seeds);
      && Surfaces(slots) != Surfaces(previous)
      && Descriptor in slots[j].pending
      && slots[j].descDataver ==
        if previous[i].descDataver == 0xFFFF_FFFF then 0 else previous[i].descDataver + 1
  {
    hide Place, Sort, Candidates, Rebuild, SameDeviceClass, Label;
    var slots := RebuildTable(exports, previous, seeds);
    var p := Bridged(exports)[j];
    RebuiltPlaces(exports, previous, seeds);
    RebuildReports(p.exp, p.endpoint, previous[i], seeds(p.exp.exportId));
    SurfaceIff(previous[i], slots[j]);
    TableIsCanonical(exports, previous, seeds);
    SurfaceAt(previous, slots, i);
  }

  // Slots are strictly ascending from endpoint 2, with distinct exports, and the whole node
  // 0, 1, slots is strictly increasing.
  lemma TableIsCanonical(exports: seq<Export>, previous: seq<Slot>, seeds: Seeds)
    ensures var slots := RebuildTable(exports, previous, seeds);
      && Ascending(slots)
      && (forall i :: 0 <= i < |slots| ==> 2 <= slots[i].matterEndpoint)
      && (forall i, j :: 0 <= i < j < |NodeEndpoints(slots)| ==> NodeEndpoints(slots)[i] < NodeEndpoints(slots)[j])
      && (forall ep :: ep in NodeEndpoints(slots) <==> ep <= 1 || FindEndpoint(slots, ep).Some?)
      && (DistinctIds(exports) ==>
        forall i, j :: 0 <= i < j < |slots| ==> slots[i].exp.exportId != slots[j].exp.exportId)
  {
    hide Place, Sort, Candidates, Rebuild, SortedByKey;
    SortedCandidates(exports);
    var sorted := Sort(Candidates(exports));
    PlaceAscends(sorted);
    var slots := RebuildTable(exports, previous, seeds);
    RebuiltPlaces(exports, previous, seeds);
    NodeEndpointsIff(slots);
    if DistinctIds(exports) {
      forall i, j | 0 <= i < j < |slots|
        ensures slots[i].exp.exportId != slots[j].exp.exportId
      {
        PlacedIdsDistinct(sorted, i, j);
      }
    }
  }
}
