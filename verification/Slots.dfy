// One bridged endpoint: its value, how HA pushes, controller commands and rebuilds change it,
// and the `ExportSlot` object that applies those changes in place.
module Slots {
  import opened Wrappers
  import opened Model
  import opened OnOffMap
  import opened WindowCovering
  import opened Utf8

  const NODE_LABEL_MAX_BYTES := 32

  datatype SlotKind =
    | OnOffKind(on: bool)
    | CoverKind(position: int, target: int, moving: bool)
    | ContactKind(closed: bool)
    | MotionKind(occupied: bool)

  // The pending-report bits.
  datatype Report = Functional | NodeLabel | Descriptor

  datatype Cluster = OnOffCluster | BooleanStateCluster | OccupancyCluster | WindowCoveringCluster

  // First entry of the endpoint's DeviceTypeList; the second is always Bridged Node.
  datatype ConcreteType = OnOffLight | OnOffPlugInUnit | ContactSensor | OccupancySensor | WindowCoveringType

  datatype Slot = Slot(
    exp: Export,
    matterEndpoint: U16,
    kind: SlotKind,
    descDataver: U32,
    infoDataver: U32,
    functionalDataver: U32,
    pending: set<Report>)

  function ClusterOf(k: SlotKind): Cluster {
    match k
    case OnOffKind(_) => OnOffCluster
    case CoverKind(_, _, _) => WindowCoveringCluster
    case ContactKind(_) => BooleanStateCluster
    case MotionKind(_) => OccupancyCluster
  }

  function ClusterOfType(t: DeviceType): Cluster {
    match t
    case Contact => BooleanStateCluster
    case Motion => OccupancyCluster
    case Cover => WindowCoveringCluster
    case Garage => WindowCoveringCluster
    case _ => OnOffCluster
  }

  function DeviceTypeOf(t: DeviceType): ConcreteType {
    match t
    case Light => OnOffLight
    case Contact => ContactSensor
    case Motion => OccupancySensor
    case Cover => WindowCoveringType
    case Garage => WindowCoveringType
    case _ => OnOffPlugInUnit
  }

  function Label(s: Slot): seq<Byte> {
    Clamp(s.exp.name, NODE_LABEL_MAX_BYTES)
  }

  // A change in the sequence of surfaces is what the configuration version counts.
  datatype Surface = Surface(endpoint: U16, exportId: Uuid, deviceType: ConcreteType)

  function SurfaceOf(s: Slot): Surface {
    Surface(s.matterEndpoint, s.exp.exportId, DeviceTypeOf(s.exp.type_))
  }

  // The functional attributes as a controller reads them.
  datatype Reading =
    | OnOffReading(on: bool)
    | StateValueReading(closed: bool)
    | OccupancyReading(occupied: bool)
    | LiftReading(current: int, target: int, status: WindowCovering.Motion)

  function Read(k: SlotKind): Reading {
    match k
    case OnOffKind(on) => OnOffReading(on)
    case ContactKind(closed) => StateValueReading(closed)
    case MotionKind(occupied) => OccupancyReading(occupied)
    case CoverKind(p, t, m) => LiftReading(HaPositionToPercent100ths(p), HaPositionToPercent100ths(t),
      OperationalStatus(p, t, m))
  }

  function Next32(v: U32): U32 {
    (v + 1) % 0x1_0000_0000
  }

  // ---------- HA pushes ----------

  function CoverAfterPush(k: SlotKind, ha: CoverHaState): SlotKind
    requires k.CoverKind?
  {
    var pos := if ha.position.Some? then ha.position.value else k.position;
    match ha.motion
    case Opening => CoverKind(pos, if k.target <= k.position then 100 else k.target, true)
    case Closing => CoverKind(pos, if k.target >= k.position then 0 else k.target, true)
    case Stopped => CoverKind(pos, if ha.position.Some? then pos else k.target, false)
  }

  // The kind after HA pushes `states` for the export behind a slot.
  function KindAfterPush(e: Export, k: SlotKind, states: seq<HaStateValue>): SlotKind {
    match k
    case OnOffKind(on) =>
      var v := OnOffFromStates(e, states);
      if v.Some? then OnOffKind(v.value) else k
    case ContactKind(_) =>
      var v := PrimaryHaOn(e, states);
      if v.Some? then ContactKind(!v.value) else k
    case MotionKind(_) =>
      var v := PrimaryHaOn(e, states);
      if v.Some? then MotionKind(v.value) else k
    case CoverKind(_, _, _) =>
      var v := PrimaryState(e, states);
      if v.Some? then CoverAfterPush(k, HaCoverFromState(v.value)) else k
  }

  function SlotAfterPush(s: Slot, states: seq<HaStateValue>): Slot {
    var k := KindAfterPush(s.exp, s.kind, states);
    if k == s.kind then s
    else s.(kind := k, functionalDataver := Next32(s.functionalDataver), pending := s.pending + {Functional})
  }

  // ---------- Controller commands ----------

  predicate IsCoverCommand(c: CommandKind) {
    c.CoverOpen? || c.CoverClose? || c.CoverStop? || c.CoverPosition?
  }

  function CoverAfterCommand(k: SlotKind, c: CommandKind, ha: Option<nat>): SlotKind
    requires k.CoverKind? && IsCoverCommand(c)
  {
    match c
    case CoverOpen => k.(target := 100, moving := true)
    case CoverClose => k.(target := 0, moving := true)
    case CoverStop => k.(target := k.position, moving := false)
    case CoverPosition => k.(target := Min(if ha.Some? then ha.value else k.target, 100), moving := true)
  }

  datatype Action = SetOnOff(on: bool) | MoveCover(kind: CommandKind, ha: Option<nat>)

  predicate Accepts(s: Slot, a: Action) {
    match a
    case SetOnOff(_) => s.kind.OnOffKind?
    case MoveCover(kind, _) => s.kind.CoverKind? && IsCoverCommand(kind)
  }

  function SlotAfterAction(s: Slot, a: Action): Slot
    requires Accepts(s, a)
  {
    match a
    case SetOnOff(on) =>
      if s.kind.on == on then s else s.(kind := OnOffKind(on), functionalDataver := Next32(s.functionalDataver))
    case MoveCover(kind, ha) =>
      s.(kind := CoverAfterCommand(s.kind, kind, ha), functionalDataver := Next32(s.functionalDataver))
  }

  // The HA command a slot queues for an action, given the slot just after it.
  function RequestFor(after: Slot, a: Action): CommandRequest {
    match a
    case SetOnOff(on) => OnOffRequest(after.exp.exportId, on)
    case MoveCover(kind, ha) =>
      CommandRequest(after.exp.exportId, kind, None, None,
        if kind.CoverPosition? then
          Some(Min(if ha.Some? then ha.value else if after.kind.CoverKind? then after.kind.target else 0, 100))
        else None)
  }

  // ---------- Rebuild ----------

  // Random initial data versions for an export not bridged before.
  datatype Seed = Seed(desc: U32, info: U32, functional: U32)

  function RebuildKind(t: DeviceType, previous: Option<SlotKind>): SlotKind {
    match ClusterOfType(t)
    case OnOffCluster => OnOffKind(previous.Some? && previous.value.OnOffKind? && previous.value.on)
    case BooleanStateCluster => ContactKind(previous.None? || (previous.value.ContactKind? && previous.value.closed))
    case OccupancyCluster => MotionKind(previous.Some? && previous.value.MotionKind? && previous.value.occupied)
    case WindowCoveringCluster =>
      if previous.Some? && previous.value.CoverKind? then previous.value else CoverKind(100, 100, false)
  }

  function Rebuild(e: Export, ep: U16, previous: Option<Slot>, seed: Seed): Slot {
    match previous
    case None => Slot(e, ep, RebuildKind(e.type_, None), seed.desc, seed.info, seed.functional, {})
    case Some(p) =>
      var s := Slot(e, ep, RebuildKind(e.type_, Some(p.kind)), p.descDataver, p.infoDataver, p.functionalDataver,
        p.pending);
      var relabelled := Label(p) != Label(s);
      var moved := SurfaceOf(p) != SurfaceOf(s);
      s.(infoDataver := if relabelled then Next32(p.infoDataver) else p.infoDataver,
         descDataver := if moved then Next32(p.descDataver) else p.descDataver,
         pending := p.pending + (if relabelled then {NodeLabel} else {}) + (if moved then {Descriptor} else {}))
  }

  predicate CoverInRange(k: SlotKind) {
    k.CoverKind? ==> 0 <= k.position <= 100 && 0 <= k.target <= 100
  }

  // ---------- The cover state machine ----------

  // HA's motion, or Stopped once the cover is at the limit it moves towards.
  predicate MotionShown(k: SlotKind, motion: WindowCovering.Motion)
    requires k.CoverKind?
  {
    var shown := OperationalStatus(k.position, k.target, k.moving);
    match motion
    case Stopped => shown.Stopped?
    case Opening => if k.position == 100 then shown.Stopped? else shown.Opening?
    case Closing => if k.position == 0 then shown.Stopped? else shown.Closing?
  }

  // Repeating one push settles within two applications, showing HA's motion.
  lemma CoverPushSettles(k: SlotKind, ha: CoverHaState)
    requires k.CoverKind? && CoverInRange(k)
    requires ha.position.Some? ==> 0 <= ha.position.value <= 100
    ensures var settled := CoverAfterPush(CoverAfterPush(k, ha), ha);
      && CoverInRange(settled)
      && CoverAfterPush(settled, ha) == settled
      && MotionShown(settled, ha.motion)
  {
    var k1 := CoverAfterPush(k, ha);
    match ha.motion
    case Opening => assert k1.target == 100 || k1.target > k.position;
    case Closing => assert k1.target == 0 || k1.target < k.position;
    case Stopped =>
  }

  // The push carries the cover up to or past a target that lay ahead of it.
  predicate ReachesTarget(k: SlotKind, ha: CoverHaState)
    requires k.CoverKind?
  {
    ha.position.Some? &&
    match ha.motion
    case Opening => k.position < k.target <= ha.position.value && k.target != 100
    case Closing => ha.position.value <= k.target < k.position && k.target != 0
    case Stopped => false
  }

  // One application is enough except exactly when the push reaches the commanded target.
  lemma CoverPushSettlesAtOnceIff(k: SlotKind, ha: CoverHaState)
    requires k.CoverKind? && CoverInRange(k)
    requires ha.position.Some? ==> 0 <= ha.position.value <= 100
    ensures CoverAfterPush(CoverAfterPush(k, ha), ha) == CoverAfterPush(k, ha) <==> !ReachesTarget(k, ha)
  {
    var k1 := CoverAfterPush(k, ha);
    match ha.motion
    case Opening => assert CoverAfterPush(k1, ha) == k1 <==> k1.target > k1.position || k1.target == 100;
    case Closing => assert CoverAfterPush(k1, ha) == k1 <==> k1.target < k1.position || k1.target == 0;
    case Stopped =>
  }

  lemma PushKeepsCoverInRange(s: Slot, states: seq<HaStateValue>)
    requires CoverInRange(s.kind)
    ensures CoverInRange(SlotAfterPush(s, states).kind) && ClusterOf(SlotAfterPush(s, states).kind) == ClusterOf(s.kind)
  {
  }

  // ---------- What controllers are told an export is ----------

  predicate IsPlug(t: DeviceType) {
    t.OnOffSwitch? || t.OnOffPlug? || t.Outlet?
  }

  predicate IsCovering(t: DeviceType) {
    t.Cover? || t.Garage?
  }

  // Controllers cannot tell these two apart.
  predicate SameDeviceClass(a: DeviceType, b: DeviceType) {
    a == b || (IsPlug(a) && IsPlug(b)) || (IsCovering(a) && IsCovering(b))
  }

  // The values a device of this type has, and the name it goes by.
  predicate Fits(t: DeviceType, r: Reading, told: ConcreteType) {
    match r
    case OnOffReading(_) => (t.Light? && told.OnOffLight?) || (IsPlug(t) && told.OnOffPlugInUnit?)
    case StateValueReading(_) => t.Contact? && told.ContactSensor?
    case OccupancyReading(_) => t.Motion? && told.OccupancySensor?
    case LiftReading(_, _, _) => IsCovering(t) && told.WindowCoveringType?
  }

  // The device type told is the one of the cluster served, whatever the export was before, and
  // it tells apart exactly the device classes.
  lemma ToldAsServed(e: Export, ep: U16, previous: Option<Slot>, seed: Seed, other: DeviceType)
    ensures Fits(e.type_, Read(Rebuild(e, ep, previous, seed).kind), DeviceTypeOf(e.type_))
    ensures DeviceTypeOf(e.type_) == DeviceTypeOf(other) <==> SameDeviceClass(e.type_, other)
  {
    hide Label, HaPositionToPercent100ths, OperationalStatus;
  }

  // Two slots look the same to controllers exactly when endpoint, export and class agree.
  lemma SurfaceIff(p: Slot, q: Slot)
    ensures SurfaceOf(p) == SurfaceOf(q) <==>
      && p.matterEndpoint == q.matterEndpoint && p.exp.exportId == q.exp.exportId
      && SameDeviceClass(p.exp.type_, q.exp.type_)
  {
  }

  // The label is the longest valid prefix of the name within 32 octets.
  lemma LabelIsPrefix(s: Slot)
    requires ValidUtf8(s.exp.name)
    ensures Label(s) <= s.exp.name && ValidUtf8(Label(s)) && |Label(s)| <= 32
    ensures |s.exp.name| <= 32 ==> Label(s) == s.exp.name
    ensures forall k :: 0 <= k <= |s.exp.name| && k <= 32 && ValidUtf8(s.exp.name[..k]) ==> k <= |Label(s)|
  {
    ClampIsLongestPrefix(s.exp.name, NODE_LABEL_MAX_BYTES);
  }

  // What is read before HA has pushed anything.
  function AtRest(t: DeviceType): Reading {
    match t
    case Contact => StateValueReading(true)
    case Motion => OccupancyReading(false)
    case Cover => LiftReading(0, 0, Stopped)
    case Garage => LiftReading(0, 0, Stopped)
    case _ => OnOffReading(false)
  }

  // A newly bridged export reads off, closed, unoccupied or fully open, and owes no report. One
  // turned into another kind of device forgets what it was and reads the same, except exactly
  // for a contact sensor, which reads open.
  lemma ConversionForgets(e: Export, ep: U16, p: Slot, seed: Seed)
    ensures Read(Rebuild(e, ep, None, seed).kind) == AtRest(e.type_)
    ensures Rebuild(e, ep, None, seed).pending == {}
    ensures ClusterOf(p.kind) != ClusterOfType(e.type_) ==>
      Read(Rebuild(e, ep, Some(p), seed).kind) == if e.type_.Contact? then StateValueReading(false) else AtRest(e.type_)
  {
    hide Label;
  }

  // ---------- What controllers read after a push ----------

  // A covering's values after HA said v. HA's motion keeps a target that still lies ahead and
  // otherwise aims at the limit; without motion the target follows a known position.
  ghost predicate LiftFollows(before: Reading, after: Reading, v: HaStateValue)
    requires before.LiftReading? && after.LiftReading?
  {
    var known := !NoPosition(v.currentPosition) || Spells(v.state, "open") || Spells(v.state, "closed");
    && (forall p: int :: PositionGiven(v.currentPosition, p) ==> after.current == (100 - p) * 100)
    && (NoPosition(v.currentPosition) ==>
          after.current ==
            if Spells(v.state, "open") then 0 else if Spells(v.state, "closed") then 10_000 else before.current)
    && after.target == (
         if Spells(v.state, "opening") then if before.target >= before.current then 0 else before.target
         else if Spells(v.state, "closing") then if before.target <= before.current then 10_000 else before.target
         else if known then after.current
         else before.target)
    && after.status == (
         if !Spells(v.state, "opening") && !Spells(v.state, "closing") then Stopped
         else if after.current > after.target then Opening
         else if after.current < after.target then Closing
         else Stopped)
  }

  // What controllers read of a device of type t after HA said v: open, for a contact, is "on".
  ghost predicate StateShown(t: DeviceType, before: Reading, after: Reading, v: HaStateValue) {
    match t
    case Contact => after == if SaysOn(v.state) then StateValueReading(false)
                             else if SaysOff(v.state) then StateValueReading(true) else before
    case Motion => after == if SaysOn(v.state) then OccupancyReading(true)
                            else if SaysOff(v.state) then OccupancyReading(false) else before
    case Cover => before.LiftReading? && after.LiftReading? && LiftFollows(before, after, v)
    case Garage => before.LiftReading? && after.LiftReading? && LiftFollows(before, after, v)
    case _ => after == if SaysOn(v.state) then OnOffReading(true)
                       else if SaysOff(v.state) then OnOffReading(false) else before
  }

  lemma CoverPushReads(k: SlotKind, v: HaStateValue)
    requires k.CoverKind? && CoverInRange(k)
    ensures LiftFollows(Read(k), Read(CoverAfterPush(k, HaCoverFromState(v))), v)
  {
    hide HaCoverFromState, Spells, PositionGiven;
    HaCoverReads(v);
    var ha := HaCoverFromState(v);
    assert ha.position.None? ==> NoPosition(v.currentPosition);
  }

  // Every push shows as what HA said; no state of the primary entity leaves the slot as it was.
  lemma PushReads(s: Slot, states: seq<HaStateValue>)
    requires ClusterOf(s.kind) == ClusterOfType(s.exp.type_) && CoverInRange(s.kind)
    ensures var said, after := PrimaryState(s.exp, states), SlotAfterPush(s, states);
      if said.None? then after == s
      else StateShown(s.exp.type_, Read(s.kind), Read(after.kind), said.value)
  {
    hide HaStateIsOn, Spells, SaysOn, SaysOff, HaCoverFromState, LiftFollows, PrimaryState;
    var said := PrimaryState(s.exp, states);
    if said.Some? {
      var on := HaStateIsOn(said.value.state);
      HaStateIsOnIff(said.value.state);
      assert PrimaryHaOn(s.exp, states) == on;
      match s.kind
      case CoverKind(_, _, _) => CoverPushReads(s.kind, said.value);
      case OnOffKind(_) => assert OnOffFromStates(s.exp, states) == on;
      case _ =>
    }
  }

  // HA's motion shows at once, or Stopped at the limit, except exactly when the push carries the
  // covering up to or past a target that lay ahead of it.
  lemma MotionShowsIff(before: Reading, after: Reading, v: HaStateValue)
    requires before.LiftReading? && after.LiftReading? && LiftFollows(before, after, v)
    requires 0 <= before.current <= 10_000 && 0 <= before.target <= 10_000 && 0 <= after.current <= 10_000
    ensures Spells(v.state, "opening") ==>
      (after.status == (if after.current == 0 then Stopped else Opening) <==>
        !(after.current <= before.target < before.current && before.target != 0))
    ensures Spells(v.state, "closing") && !Spells(v.state, "opening") ==>
      (after.status == (if after.current == 10_000 then Stopped else Closing) <==>
        !(before.current < before.target <= after.current && before.target != 10_000))
  {
    hide Spells, PositionGiven;
  }

  // The functional cluster's data version one further, wrapping at 32 bits.
  predicate VersionMoved(before: Slot, after: Slot) {
    after.functionalDataver as int ==
      if before.functionalDataver == 0xFFFF_FFFF then 0 else before.functionalDataver + 1
  }

  // For instance: a covering at 20 sent to 50 and then reported at 60, still opening, shows as
  // closing until the next push.
  lemma OvershootShowsOpposite()
    ensures var pushed := CoverAfterPush(CoverKind(20, 50, true), CoverHaState(Some(60), Opening));
      && Read(pushed) == LiftReading(4000, 5000, Closing)
      && Read(CoverAfterPush(pushed, CoverHaState(Some(60), Opening))) == LiftReading(4000, 0, Opening)
  {
  }

  // A push or a command touches nothing but the value, its data version and, for a push, the
  // functional report: all of them when the value changed, none when it did not. A covering's
  // command counts as a change always.
  lemma ChangeMovesVersion(s: Slot, states: seq<HaStateValue>, a: Action)
    ensures var t := SlotAfterPush(s, states);
      && t == s.(kind := t.kind, functionalDataver := t.functionalDataver, pending := t.pending)
      && (if t.kind == s.kind then t == s else VersionMoved(s, t) && t.pending == s.pending + {Functional})
    ensures Accepts(s, a) ==>
      var t := SlotAfterAction(s, a);
      && t == s.(kind := t.kind, functionalDataver := t.functionalDataver)
      && (if a.SetOnOff? && t.kind == s.kind then t == s else VersionMoved(s, t))
  {
    hide KindAfterPush, CoverAfterCommand;
  }

  // ---------- What controllers read after a command ----------

  // Which devices take which commands.
  predicate Takes(t: DeviceType, a: Action) {
    match a
    case SetOnOff(_) => t.Light? || IsPlug(t)
    case MoveCover(kind, _) => IsCovering(t) && kind in {CoverOpen, CoverClose, CoverStop, CoverPosition}
  }

  // A command moves the target only; the position is HA's to report.
  predicate CommandShown(before: Reading, after: Reading, a: Action) {
    match a
    case SetOnOff(on) => after == OnOffReading(on)
    case MoveCover(kind, ha) =>
      && before.LiftReading? && after.LiftReading?
      && after.current == before.current
      && after.target == (
           match kind
           case CoverOpen => 0
           case CoverClose => 10_000
           case CoverPosition =>
             if ha.None? then before.target else if ha.value <= 100 then (100 - ha.value) * 100 else 0
           case _ => before.current)
      && after.status == (
           if after.current > after.target then Opening else if after.current < after.target then Closing else Stopped)
  }

  lemma ActionReads(s: Slot, a: Action)
    requires ClusterOf(s.kind) == ClusterOfType(s.exp.type_) && CoverInRange(s.kind)
    ensures Accepts(s, a) <==> Takes(s.exp.type_, a)
    ensures Accepts(s, a) ==> CommandShown(Read(s.kind), Read(SlotAfterAction(s, a).kind), a)
  {
  }

  // HA decides: a push that determines an on/off, contact or motion value does so whatever the
  // slot held, and pushing it again changes and reports nothing.
  lemma PushIsIdempotent(s: Slot, t: Slot, states: seq<HaStateValue>)
    requires s.exp ==
      t.exp && ClusterOf(s.kind) == ClusterOf(t.kind) == ClusterOfType(s.exp.type_) && !s.kind.CoverKind?
    ensures SlotAfterPush(SlotAfterPush(s, states), states) == SlotAfterPush(s, states)
    ensures PrimaryHaOn(s.exp, states).Some? ==>
      && SlotAfterPush(s, states).kind == SlotAfterPush(t, states).kind
      && (s.kind.ContactKind? ==> SlotAfterPush(s, states).kind.closed == !PrimaryHaOn(s.exp, states).value)
  {
    hide HaStateIsOn;
    var k := SlotAfterPush(s, states).kind;
    assert KindAfterPush(s.exp, k, states) == k;
  }

  // A rebuild of a bridged export raises NodeLabel exactly when the clamped labels differ and
  // Descriptor exactly when the surface moved, keeps what is pending, and moves each data
  // version forward by one exactly with its report.
  lemma RebuildReports(e: Export, ep: U16, p: Slot, seed: Seed)
    ensures var s := Rebuild(e, ep, Some(p), seed);
      && p.pending <= s.pending
      && (NodeLabel in s.pending - p.pending ==> Label(p) != Label(s))
      && (Label(p) != Label(s) ==> NodeLabel in s.pending && s.infoDataver == Next32(p.infoDataver))
      && (Label(p) == Label(s) ==> s.infoDataver == p.infoDataver)
      && (Descriptor in s.pending - p.pending ==> SurfaceOf(p) != SurfaceOf(s))
      && (SurfaceOf(p) != SurfaceOf(s) ==> Descriptor in s.pending && s.descDataver == Next32(p.descDataver))
      && (SurfaceOf(p) == SurfaceOf(s) ==> s.descDataver == p.descDataver)
      && s.functionalDataver == p.functionalDataver
      && (Functional in s.pending <==> Functional in p.pending)
      && (ClusterOf(p.kind) == ClusterOfType(e.type_) ==> s.kind == p.kind)
  {
  }

  // ---------- The slot object ----------

  class ExportSlot {
    const exp: Export
    const matterEndpoint: U16
    var kind: SlotKind
    var descDataver: U32
    var infoDataver: U32
    var functionalDataver: U32
    var pending: set<Report>

    function View(): Slot
      reads this
    {
      Slot(exp, matterEndpoint, kind, descDataver, infoDataver, functionalDataver, pending)
    }

    constructor (e: Export, ep: U16, previous: ExportSlot?, seed: Seed)
      ensures exp == e && matterEndpoint == ep
      ensures View() == Rebuild(e, ep, if previous == null then None else Some(previous.View()), seed)
    {
      exp, matterEndpoint := e, ep;
      if previous == null {
        kind := RebuildKind(e.type_, None);
        descDataver, infoDataver, functionalDataver, pending := seed.desc, seed.info, seed.functional, {};
      } else {
        kind := RebuildKind(e.type_, Some(previous.kind));
        descDataver, infoDataver, functionalDataver := previous.descDataver, previous.infoDataver,
          previous.functionalDataver;
        pending := previous.pending;
      }
      new;
      if previous != null && Label(previous.View()) != Label(View()) {
        infoDataver := Next32(infoDataver);
        RequestReport({NodeLabel});
      }
      if previous != null && SurfaceOf(previous.View()) != SurfaceOf(View()) {
        descDataver := Next32(descDataver);
        RequestReport({Descriptor});
      }
    }

    method RequestReport(bits: set<Report>)
      modifies this`pending
      ensures pending == old(pending) + bits
    {
      pending := pending + bits;
    }

    method MarkFunctionalChanged()
      modifies this`functionalDataver, this`pending
      ensures functionalDataver == Next32(old(functionalDataver)) && pending == old(pending) + {Functional}
    {
      functionalDataver := Next32(functionalDataver);
      RequestReport({Functional});
    }

    method StoreOn(value: bool) returns (changed: bool)
      modifies this`kind
      ensures kind == if old(kind).OnOffKind? then OnOffKind(value) else old(kind)
      ensures changed == (kind != old(kind))
    {
      changed := false;
      if kind.OnOffKind? {
        changed := kind.on != value;
        kind := kind.(on := value);
      }
    }

    method StoreClosed(value: bool) returns (changed: bool)
      modifies this`kind
      ensures kind == if old(kind).ContactKind? then ContactKind(value) else old(kind)
      ensures changed == (kind != old(kind))
    {
      changed := false;
      if kind.ContactKind? {
        changed := kind.closed != value;
        kind := kind.(closed := value);
      }
    }

    method StoreOccupied(value: bool) returns (changed: bool)
      modifies this`kind
      ensures kind == if old(kind).MotionKind? then MotionKind(value) else old(kind)
      ensures changed == (kind != old(kind))
    {
      changed := false;
      if kind.MotionKind? {
        changed := kind.occupied != value;
        kind := kind.(occupied := value);
      }
    }

    // Reports a change exactly when position, target or motion changed.
    method ApplyCoverHa(ha: CoverHaState) returns (changed: bool)
      modifies this`kind
      ensures old(kind).CoverKind? ==> kind == CoverAfterPush(old(kind), ha)
      ensures !old(kind).CoverKind? ==> kind == old(kind)
      ensures changed == (kind != old(kind))
    {
      if !kind.CoverKind? {
        return false;
      }
      changed := false;
      var curPos, curTgt, curMov := kind.position, kind.target, kind.moving;
      match ha.motion {
        case Opening =>
          if !curMov {
            kind := kind.(moving := true);
            changed := true;
          }
          if curTgt <= curPos && curTgt != 100 {
            kind := kind.(target := 100);
            changed := true;
          }
          if ha.position.Some? && kind.position != ha.position.value {
            kind := kind.(position := ha.position.value);
            changed := true;
          }
        case Closing =>
          if !curMov {
            kind := kind.(moving := true);
            changed := true;
          }
          if curTgt >= curPos && curTgt != 0 {
            kind := kind.(target := 0);
            changed := true;
          }
          if ha.position.Some? && kind.position != ha.position.value {
            kind := kind.(position := ha.position.value);
            changed := true;
          }
        case Stopped =>
          if curMov {
            kind := kind.(moving := false);
            changed := true;
          }
          if ha.position.Some? {
            if kind.position != ha.position.value {
              kind := kind.(position := ha.position.value);
              changed := true;
            }
            if kind.target != ha.position.value {
              kind := kind.(target := ha.position.value);
              changed := true;
            }
          }
      }
    }

    method CoverCommand(c: CommandKind, ha: Option<nat>)
      requires kind.CoverKind? && IsCoverCommand(c)
      modifies this`kind
      ensures kind == CoverAfterCommand(old(kind), c, ha)
    {
      match c {
        case CoverOpen => kind := kind.(target := 100, moving := true);
        case CoverClose => kind := kind.(target := 0, moving := true);
        case CoverStop => kind := kind.(target := kind.position, moving := false);
        case CoverPosition =>
          var p := if ha.Some? then ha.value else kind.target;
          kind := kind.(target := Min(p, 100), moving := true);
      }
    }

    // A controller's write: the data version moves, the report is the command handler's.
    method ApplyAction(a: Action)
      requires Accepts(View(), a)
      modifies this`kind, this`functionalDataver
      ensures View() == SlotAfterAction(old(View()), a)
    {
      match a {
        case SetOnOff(on) =>
          var changed := StoreOn(on);
          if changed {
            functionalDataver := Next32(functionalDataver);
          }
        case MoveCover(c, ha) =>
          CoverCommand(c, ha);
          functionalDataver := Next32(functionalDataver);
      }
    }

    // HA is the source of truth: the value is stored and a report requested, nothing is queued.
    method ApplyPush(states: seq<HaStateValue>) returns (changed: bool)
      modifies this
      ensures View() == SlotAfterPush(old(View()), states)
      ensures changed == (kind != old(kind))
    {
      changed := false;
      match kind {
        case OnOffKind(_) =>
          var on := OnOffFromStates(exp, states);
          if on.Some? {
            changed := StoreOn(on.value);
          }
        case ContactKind(_) =>
          var on := PrimaryHaOn(exp, states);
          if on.Some? {
            changed := StoreClosed(!on.value);
          }
        case MotionKind(_) =>
          var on := PrimaryHaOn(exp, states);
          if on.Some? {
            changed := StoreOccupied(on.value);
          }
        case CoverKind(_, _, _) =>
          var st := PrimaryState(exp, states);
          if st.Some? {
            changed := ApplyCoverHa(HaCoverFromState(st.value));
          }
      }
      if changed {
        MarkFunctionalChanged();
      }
    }
  }
}
