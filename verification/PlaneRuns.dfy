// Every interleaving of rebuilds, HA pushes, controller commands, notifications and drains.
// A closure run under the shared lock is one step; a rebuild is two (copy, then swap), with the
// write guard held in between. `seen` and `taken` are history: what controllers were last told
// about each slot, and every command drained so far.
module PlaneRuns {
  import opened Wrappers
  import opened Model
  import opened OnOffMap
  import opened WindowCovering
  import opened Slots
  import opened SlotTable

  // The value each attribute had when controllers were last notified of it (or read it when the
  // endpoint appeared).
  type Seen = map<Attribute, Value>

  // The copy made under the write guard, not yet swapped in.
  datatype Draft = Draft(exports: seq<Export>, seeds: Seeds, slots: seq<Slot>)

  // `owed` holds the paths of command handlers between their write and their own notification.
  datatype Sys = Sys(
    slots: seq<Slot>,
    guard: Option<Draft>,
    commands: seq<CommandRequest>,
    taken: seq<CommandRequest>,
    seen: seq<Seen>,
    owed: set<(U16, Cluster)>)

  datatype Step =
    | Copy(exports: seq<Export>, seeds: Seeds)
    | Swap
    | Push(id: Uuid, states: seq<HaStateValue>)
    | Act(endpoint: U16, action: Action)
    | NotifyOwn(endpoint: U16, cluster: Cluster)
    | Drain
    | BumpDatavers(hits: Slot -> bool)
    | TakeCommands

  function SeenNow(s: Slot): Seen {
    map a: Attribute | ValueAt(s, a).Some? :: ValueAt(s, a).value
  }

  function FunctionalNow(s: Slot): Seen {
    map a: Attribute | ValueAt(s, a).Some? && BitOf(a).Functional? :: ValueAt(s, a).value
  }

  // The functional attributes are read anew.
  function Reread(s: Slot, e: Seen): Seen {
    (map a | a in e && !BitOf(a).Functional? :: e[a]) + FunctionalNow(s)
  }

  // The record follows an export while it stays bridged. Its reading starts afresh when the
  // functional cluster changes, or when the endpoint moves under a handler about to notify:
  // controllers read a new path before they can have been told anything about it.
  function SeenAfterRebuild(n: Slot, slots: seq<Slot>, seen: seq<Seen>, owed: set<(U16, Cluster)>): Seen
    requires |seen| == |slots|
  {
    match FindExport(slots, n.exp.exportId)
    case None => SeenNow(n)
    case Some(i) =>
      var o := slots[i];
      var c := ClusterOf(o.kind);
      if c != ClusterOf(n.kind) || ((o.matterEndpoint, c) in owed && o.matterEndpoint != n.matterEndpoint) then
        Reread(n, seen[i])
      else
        seen[i]
  }

  // Controllers learn the attributes the drain lists, and no others.
  function SeenAfterDrain(s: Slot, e: Seen, out: seq<Notice>): Seen {
    e + map a: Attribute | ValueAt(s, a).Some? && Notice(s.matterEndpoint, a) in out :: ValueAt(s, a).value
  }

  function BumpSlot(s: Slot, hit: bool): Slot {
    if hit then
      s.(descDataver := Next32(s.descDataver), infoDataver := Next32(s.infoDataver),
        functionalDataver := Next32(s.functionalDataver))
    else s
  }

  predicate Enabled(s: Sys, step: Step) {
    match step
    case Copy(_, _) => s.guard.None?
    case Swap => s.guard.Some?
    case NotifyOwn(ep, c) => (ep, c) in s.owed
    case TakeCommands => true
    case _ => s.guard.None?
  }

  function After(s: Sys, step: Step): Sys
    requires |s.seen| == |s.slots| && Enabled(s, step)
  {
    match step
    case Copy(exports, seeds) =>
      s.(guard := Some(Draft(exports, seeds, RebuildTable(exports, s.slots, seeds))))
    case Swap =>
      var next := s.guard.value.slots;
      s.(slots := next, guard := None,
         seen := seq(|next|, i requires 0 <= i < |next| => SeenAfterRebuild(next[i], s.slots, s.seen, s.owed)))
    case Push(id, states) =>
      s.(slots := PushTable(s.slots, id, states))
    case Act(ep, a) =>
      var i := Target(s.slots, ep, a);
      s.(slots := ActTable(s.slots, ep, a),
         commands := s.commands + ActRequests(s.slots, ep, a),
         owed := if i.Some? then s.owed + {(ep, ClusterOf(s.slots[i.value].kind))} else s.owed)
    case NotifyOwn(ep, c) =>
      s.(owed := s.owed - {(ep, c)},
         seen := seq(|s.slots|, i requires 0 <= i < |s.slots| =>
           if s.slots[i].matterEndpoint == ep && ClusterOf(s.slots[i].kind) == c
           then s.seen[i] + FunctionalNow(s.slots[i])
           else s.seen[i]))
    case Drain =>
      var out := Notices(s.slots);
      s.(slots := DrainTable(s.slots),
         seen := seq(|s.slots|, i requires 0 <= i < |s.slots| => SeenAfterDrain(s.slots[i], s.seen[i], out)))
    case BumpDatavers(hits) =>
      s.(slots := seq(|s.slots|, i requires 0 <= i < |s.slots| => BumpSlot(s.slots[i], hits(s.slots[i]))))
    case TakeCommands =>
      s.(commands := [], taken := s.taken + s.commands)
  }

  ghost predicate Init(s: Sys) {
    s == Sys([], None, [], [], [], {})
  }

  ghost predicate IsRun(ss: seq<Sys>, steps: seq<Step>) {
    && |ss| == |steps| + 1
    && Init(ss[0])
    && forall k :: 0 <= k < |steps| ==>
         && |ss[k].seen| == |ss[k].slots|
         && Enabled(ss[k], steps[k]) && ss[k + 1] == After(ss[k], steps[k])
         && (steps[k].Copy? ==> DistinctIds(steps[k].exports))
  }

  // ---------- Invariant ----------

  predicate Knows(e: Seen, s: Slot, a: Attribute) {
    a in e && ValueAt(s, a) == Some(e[a])
  }

  predicate Owed(s: Slot, owed: set<(U16, Cluster)>) {
    (s.matterEndpoint, ClusterOf(s.kind)) in owed
  }

  // Whatever a controller would read differently from what it was told is about to be reported.
  ghost predicate Coherent(s: Slot, e: Seen, owed: set<(U16, Cluster)>) {
    && (forall a: Attribute :: a in e <==> ValueAt(s, a).Some?)
    && forall a: Attribute :: a in e && !Knows(e, s, a) ==>
      BitOf(a) in s.pending || (BitOf(a).Functional? && Owed(s, owed))
  }

  ghost predicate SlotOk(s: Slot) {
    ClusterOf(s.kind) == ClusterOfType(s.exp.type_) && CoverInRange(s.kind) && 2 <= s.matterEndpoint
  }

  ghost predicate TableOk(slots: seq<Slot>) {
    && (forall i :: 0 <= i < |slots| ==> SlotOk(slots[i]))
    && Ascending(slots)
    && forall i, j :: 0 <= i < j < |slots| ==> slots[i].exp.exportId != slots[j].exp.exportId
  }

  ghost predicate Inv(s: Sys) {
    && |s.seen| == |s.slots|
    && TableOk(s.slots)
    && (forall i :: 0 <= i < |s.slots| ==> Coherent(s.slots[i], s.seen[i], s.owed))
    && (s.guard.Some? ==>
          && DistinctIds(s.guard.value.exports)
          && s.guard.value.slots == RebuildTable(s.guard.value.exports, s.slots, s.guard.value.seeds))
  }

  lemma RebuildKeepsSlotOk(e: Export, ep: U16, previous: Option<Slot>, seed: Seed)
    requires previous.Some? ==> SlotOk(previous.value)
    requires 2 <= ep
    ensures SlotOk(Rebuild(e, ep, previous, seed))
  {
  }

  lemma RebuildKeepsTableOk(exports: seq<Export>, slots: seq<Slot>, seeds: Seeds)
    requires DistinctIds(exports) && TableOk(slots)
    ensures TableOk(RebuildTable(exports, slots, seeds))
  {
    hide Rebuild, Place, Sort, Candidates, SlotOk;
    TableIsCanonical(exports, slots, seeds);
    var r, placed := RebuildTable(exports, slots, seeds), Bridged(exports);
    RebuiltPlaces(exports, slots, seeds);
    forall i | 0 <= i < |r|
      ensures SlotOk(r[i])
    {
      RebuildKeepsSlotOk(placed[i].exp, placed[i].endpoint, PreviousSlot(slots, placed[i].exp.exportId),
        seeds(placed[i].exp.exportId));
    }
  }

  // Which attributes a slot has depends on its cluster alone, and its functional values on its kind.
  lemma ValuesFollow(p: Slot, q: Slot, a: Attribute)
    ensures ClusterOf(p.kind) == ClusterOf(q.kind) ==> (ValueAt(p, a).Some? <==> ValueAt(q, a).Some?)
    ensures !BitOf(a).Functional? ==> ValueAt(p, a).Some?
    ensures p.kind == q.kind && BitOf(a).Functional? ==> ValueAt(p, a) == ValueAt(q, a)
    ensures BitOf(a).NodeLabel? && Label(p) == Label(q) ==> ValueAt(p, a) == ValueAt(q, a)
    ensures BitOf(a).Descriptor? && SurfaceOf(p) == SurfaceOf(q) ==> ValueAt(p, a) == ValueAt(q, a)
    ensures p.exp == q.exp && !BitOf(a).Functional? ==> ValueAt(p, a) == ValueAt(q, a)
  {
    hide Label, DeviceTypeOf, HaPositionToPercent100ths, OperationalStatus;
    if p.exp == q.exp {
      SameExportSameLabel(p, q);
    }
  }

  // One slot through a rebuild: the record and the pending bits stay in step.
  lemma RebuildCoherent(e: Export, ep: U16, o: Slot, seed: Seed, was: Seen, now: Seen, owed: set<(U16, Cluster)>)
    requires Coherent(o, was, owed)
    requires var n := Rebuild(e, ep, Some(o), seed);
      var c := ClusterOf(o.kind);
      now ==
        if c != ClusterOf(n.kind) || ((o.matterEndpoint, c) in owed && o.matterEndpoint != n.matterEndpoint)
        then Reread(n, was)
        else was
    requires SlotOk(o) && o.exp.exportId == e.exportId
    ensures Coherent(Rebuild(e, ep, Some(o), seed), now, owed)
  {
    hide Label, ValueAt, SurfaceOf, Rebuild;
    var n := Rebuild(e, ep, Some(o), seed);
    RebuildReports(e, ep, o, seed);
    RebuildServes(e, ep, o, seed);
    forall a: Attribute
      ensures a in now <==> ValueAt(n, a).Some?
      ensures a in now && !Knows(now, n, a) ==> BitOf(a) in n.pending || (BitOf(a).Functional? && Owed(n, owed))
    {
      ValuesFollow(o, n, a);
      ValuesFollow(n, o, a);
    }
  }

  lemma RebuildServes(e: Export, ep: U16, o: Slot, seed: Seed)
    ensures var n := Rebuild(e, ep, Some(o), seed);
      ClusterOf(n.kind) == ClusterOfType(e.type_) && n.matterEndpoint == ep && n.exp == e
  {
  }

  lemma SwapKeepsInv(s: Sys)
    requires Inv(s) && s.guard.Some?
    ensures Inv(After(s, Swap))
  {
    hide Rebuild, Place, Sort, Candidates, Coherent, SlotOk;
    var d, s' := s.guard.value, After(s, Swap);
    RebuildKeepsTableOk(d.exports, s.slots, d.seeds);
    forall i | 0 <= i < |s'.slots|
      ensures Coherent(s'.slots[i], s'.seen[i], s'.owed)
    {
      SwapCoherentAt(s, i);
    }
  }

  lemma SwapCoherentAt(s: Sys, i: nat)
    requires Inv(s) && s.guard.Some? && i < |s.guard.value.slots|
    ensures Coherent(After(s, Swap).slots[i], After(s, Swap).seen[i], s.owed)
  {
    hide Rebuild, Place, Sort, Candidates, SlotOk, Read, Label, Ascending;
    var d := s.guard.value;
    var p := Bridged(d.exports)[i];
    var n := d.slots[i];
    RebuiltPlaces(d.exports, s.slots, d.seeds);
    match FindExport(s.slots, p.exp.exportId) {
      case None =>
      case Some(k) =>
        RebuildCoherent(p.exp, p.endpoint, s.slots[k], d.seeds(p.exp.exportId), s.seen[k], After(s, Swap).seen[i],
          s.owed);
    }
  }

  // Steps other than a rebuild leave every slot's export and endpoint alone.
  ghost predicate SamePlaces(a: seq<Slot>, b: seq<Slot>) {
    |a| == |b| && forall i :: 0 <= i < |a| ==> b[i].exp == a[i].exp && b[i].matterEndpoint == a[i].matterEndpoint
  }

  lemma SamePlacesTableOk(a: seq<Slot>, b: seq<Slot>)
    requires TableOk(a) && SamePlaces(a, b)
    requires forall i :: 0 <= i < |b| ==> SlotOk(b[i])
    ensures TableOk(b)
  {
    hide SlotOk;
  }

  // A slot whose values moved only where a report is pending or owed stays coherent.
  lemma CoherentKept(s: Slot, t: Slot, e: Seen, owed: set<(U16, Cluster)>, owed': set<(U16, Cluster)>)
    requires Coherent(s, e, owed) && owed <= owed'
    requires t.exp == s.exp && t.matterEndpoint == s.matterEndpoint && ClusterOf(t.kind) == ClusterOf(s.kind)
    requires s.pending <= t.pending
    requires t.kind != s.kind ==> Functional in t.pending || Owed(t, owed')
    ensures Coherent(t, e, owed')
  {
    hide ValueAt;
    forall a: Attribute
      ensures a in e <==> ValueAt(t, a).Some?
      ensures a in e && !Knows(e, t, a) ==> BitOf(a) in t.pending || (BitOf(a).Functional? && Owed(t, owed'))
    {
      ValuesFollow(s, t, a);
    }
  }

  lemma PushCoherent(s: Slot, states: seq<HaStateValue>, e: Seen, owed: set<(U16, Cluster)>)
    requires Coherent(s, e, owed) && SlotOk(s)
    ensures Coherent(SlotAfterPush(s, states), e, owed) && SlotOk(SlotAfterPush(s, states))
    ensures SlotAfterPush(s, states).exp == s.exp && SlotAfterPush(s, states).matterEndpoint == s.matterEndpoint
  {
    hide Coherent, KindAfterPush;
    PushKeepsCoverInRange(s, states);
    CoherentKept(s, SlotAfterPush(s, states), e, owed, owed);
  }

  lemma PushKeepsInv(s: Sys, id: Uuid, states: seq<HaStateValue>)
    requires Inv(s) && s.guard.None?
    ensures Inv(After(s, Push(id, states)))
  {
    hide Coherent, SlotOk, SlotAfterPush;
    var s' := After(s, Push(id, states));
    match FindExport(s.slots, id) {
      case None =>
      case Some(i) => PushCoherent(s.slots[i], states, s.seen[i], s.owed);
    }
    SamePlacesTableOk(s.slots, s'.slots);
  }

  lemma ActKeepsSlotOk(s: Slot, a: Action)
    requires SlotOk(s) && Accepts(s, a)
    ensures SlotOk(SlotAfterAction(s, a))
    ensures var t := SlotAfterAction(s, a);
      t.exp == s.exp && t.matterEndpoint ==
        s.matterEndpoint && t.pending == s.pending && ClusterOf(t.kind) == ClusterOf(s.kind)
  {
  }

  lemma ActCoherent(s: Slot, a: Action, e: Seen, owed: set<(U16, Cluster)>)
    requires Coherent(s, e, owed) && SlotOk(s) && Accepts(s, a)
    ensures Coherent(SlotAfterAction(s, a), e, owed + {(s.matterEndpoint, ClusterOf(s.kind))})
  {
    hide Coherent, SlotAfterAction;
    ActKeepsSlotOk(s, a);
    CoherentKept(s, SlotAfterAction(s, a), e, owed, owed + {(s.matterEndpoint, ClusterOf(s.kind))});
  }

  lemma SameExportSameLabel(a: Slot, b: Slot)
    requires a.exp == b.exp
    ensures Label(a) == Label(b)
  {
  }

  lemma CoherentMonotone(s: Slot, e: Seen, owed: set<(U16, Cluster)>, owed': set<(U16, Cluster)>)
    requires Coherent(s, e, owed) && owed <= owed'
    ensures Coherent(s, e, owed')
  {
    hide Coherent;
    CoherentKept(s, s, e, owed, owed');
  }

  lemma ActKeepsInv(s: Sys, ep: U16, a: Action)
    requires Inv(s) && s.guard.None?
    ensures Inv(After(s, Act(ep, a)))
  {
    hide Coherent, SlotOk, SlotAfterAction, RequestFor;
    var s' := After(s, Act(ep, a));
    match Target(s.slots, ep, a) {
      case None =>
      case Some(i) =>
        ActKeepsSlotOk(s.slots[i], a);
        ActCoherent(s.slots[i], a, s.seen[i], s.owed);
    }
    SamePlacesTableOk(s.slots, s'.slots);
    forall i | 0 <= i < |s'.slots|
      ensures Coherent(s'.slots[i], s'.seen[i], s'.owed)
    {
      if s'.slots[i] == s.slots[i] {
        CoherentMonotone(s.slots[i], s.seen[i], s.owed, s'.owed);
      }
    }
  }

  lemma NotifyCoherent(s: Slot, e: Seen, owed: set<(U16, Cluster)>, ep: U16, c: Cluster)
    requires Coherent(s, e, owed)
    ensures var told := s.matterEndpoint == ep && ClusterOf(s.kind) == c;
      Coherent(s, if told then e + FunctionalNow(s) else e, owed - {(ep, c)})
  {
    hide ValueAt;
  }

  lemma NotifyKeepsInv(s: Sys, ep: U16, c: Cluster)
    requires Inv(s) && (ep, c) in s.owed
    ensures Inv(After(s, NotifyOwn(ep, c)))
  {
    hide Coherent, SlotOk, RebuildTable, FunctionalNow;
    var s' := After(s, NotifyOwn(ep, c));
    forall i | 0 <= i < |s'.slots|
      ensures Coherent(s'.slots[i], s'.seen[i], s'.owed)
    {
      NotifyCoherent(s.slots[i], s.seen[i], s.owed, ep, c);
    }
  }

  lemma DrainCoherent(slots: seq<Slot>, i: nat, e: Seen, owed: set<(U16, Cluster)>)
    requires i < |slots| && Coherent(slots[i], e, owed)
    ensures Coherent(slots[i].(pending := {}), SeenAfterDrain(slots[i], e, Notices(slots)), owed)
  {
    hide ValueAt, Notices;
    var s, t := slots[i], slots[i].(pending := {});
    var e' := SeenAfterDrain(s, e, Notices(slots));
    forall a: Attribute
      ensures a in e' <==> ValueAt(t, a).Some?
      ensures a in e' && !Knows(e', t, a) ==> BitOf(a).Functional? && Owed(t, owed)
    {
      ValuesFollow(s, t, a);
      if a in e && !Knows(e, s, a) && BitOf(a) in s.pending {
        PendingIsListed(slots, i, a);
      }
    }
  }

  lemma DrainKeepsInv(s: Sys)
    requires Inv(s) && s.guard.None?
    ensures Inv(After(s, Drain))
  {
    hide Coherent, SeenAfterDrain, Notices;
    var s' := After(s, Drain);
    SamePlacesTableOk(s.slots, s'.slots);
    forall i | 0 <= i < |s'.slots|
      ensures Coherent(s'.slots[i], s'.seen[i], s'.owed)
    {
      DrainCoherent(s.slots, i, s.seen[i], s.owed);
    }
  }

  lemma BumpKeepsInv(s: Sys, hits: Slot -> bool)
    requires Inv(s) && s.guard.None?
    ensures Inv(After(s, BumpDatavers(hits)))
  {
    hide Coherent;
    var s' := After(s, BumpDatavers(hits));
    SamePlacesTableOk(s.slots, s'.slots);
    forall i | 0 <= i < |s'.slots|
      ensures Coherent(s'.slots[i], s'.seen[i], s'.owed)
    {
      CoherentKept(s.slots[i], s'.slots[i], s.seen[i], s.owed, s.owed);
    }
  }

  lemma InvStep(s: Sys, step: Step)
    requires Inv(s) && Enabled(s, step)
    requires step.Copy? ==> DistinctIds(step.exports)
    ensures Inv(After(s, step))
  {
    hide TableOk, Coherent;
    match step
    case Copy(_, _) =>
    case Swap => SwapKeepsInv(s);
    case Push(id, states) => PushKeepsInv(s, id, states);
    case Act(ep, a) => ActKeepsInv(s, ep, a);
    case NotifyOwn(ep, c) => NotifyKeepsInv(s, ep, c);
    case Drain => DrainKeepsInv(s);
    case BumpDatavers(hits) => BumpKeepsInv(s, hits);
    case TakeCommands =>
  }

  lemma {:induction false} InvAlways(ss: seq<Sys>, steps: seq<Step>, k: nat)
    requires IsRun(ss, steps) && k < |ss|
    ensures Inv(ss[k])
  {
    hide Inv, After, Enabled;
    if k == 0 {
      InitInv(ss[0]);
    } else {
      InvAlways(ss, steps, k - 1);
      assert ss[k - 1 + 1] == After(ss[k - 1], steps[k - 1]);
      InvStep(ss[k - 1], steps[k - 1]);
    }
  }

  lemma InitInv(s: Sys)
    requires Init(s)
    ensures Inv(s)
  {
  }

  // In every reachable state the table is canonical, every slot serves its device type's
  // functional cluster and is announced as the matching device, and cover positions and targets
  // stay within 0..=100.
  lemma TableAlwaysOk(ss: seq<Sys>, steps: seq<Step>, k: nat)
    requires IsRun(ss, steps) && k < |ss|
    ensures TableOk(ss[k].slots)
    ensures forall i :: 0 <= i < |ss[k].slots| ==>
      var s := ss[k].slots[i]; Fits(s.exp.type_, Read(s.kind), SurfaceOf(s).deviceType)
  {
    hide IsRun, TableOk, SlotOk, Fits, Read, SurfaceOf;
    InvAlways(ss, steps, k);
    forall i | 0 <= i < |ss[k].slots|
      ensures var s := ss[k].slots[i]; Fits(s.exp.type_, Read(s.kind), SurfaceOf(s).deviceType)
    {
      OkFits(ss[k].slots, i);
    }
  }

  lemma OkFits(slots: seq<Slot>, i: nat)
    requires TableOk(slots) && i < |slots|
    ensures var s := slots[i]; Fits(s.exp.type_, Read(s.kind), SurfaceOf(s).deviceType)
  {
    hide HaPositionToPercent100ths, OperationalStatus;
    assert SlotOk(slots[i]);
  }

  // ---------- HA's word ----------

  // After every push in every run the pushed export's slot reads as HA said, whatever it held,
  // with a moved data version and a pending report exactly when its value changed; every other
  // slot is left alone.
  lemma PushIsShown(ss: seq<Sys>, steps: seq<Step>, k: nat, i: nat)
    requires IsRun(ss, steps) && k < |steps| && steps[k].Push? && i < |ss[k].slots|
    ensures |ss[k + 1].slots| == |ss[k].slots|
    ensures var s, s' := ss[k].slots[i], ss[k + 1].slots[i];
      var said := PrimaryState(s.exp, steps[k].states);
      if s.exp.exportId != steps[k].id || said.None? then s' == s
      else
        && StateShown(s.exp.type_, Read(s.kind), Read(s'.kind), said.value)
        && s' == s.(kind := s'.kind, functionalDataver := s'.functionalDataver, pending := s'.pending)
        && (if s'.kind == s.kind then s' == s else VersionMoved(s, s') && s'.pending == s.pending + {Functional})
  {
    hide Coherent, Read, StateShown, PrimaryState, KindAfterPush;
    InvAlways(ss, steps, k);
    var s := ss[k].slots[i];
    assert ss[k + 1] == After(ss[k], steps[k]);
    if s.exp.exportId == steps[k].id {
      assert FindExport(ss[k].slots, steps[k].id) == Some(i);
      PushReads(s, steps[k].states);
      ChangeMovesVersion(s, steps[k].states, SetOnOff(true));
    }
  }

  // ---------- Report coherence ----------

  // In every reachable state, an attribute that reads differently from what controllers were
  // last told is listed by the next drain; a functional one may instead be about to be
  // announced by the very command handler that changed it. And what the drain lists is an
  // attribute that some slot at that endpoint has, with its report pending.
  lemma ReportCoherence(ss: seq<Sys>, steps: seq<Step>, k: nat, i: nat, a: Attribute)
    requires IsRun(ss, steps) && k < |ss| && i < |ss[k].slots|
    ensures |ss[k].seen| == |ss[k].slots|
    ensures var s, e, out := ss[k].slots[i], ss[k].seen[i], Notices(ss[k].slots);
      && (a in e <==> ValueAt(s, a).Some?)
      && (ValueAt(s, a).Some? && !Knows(e, s, a) ==>
            Notice(s.matterEndpoint, a) in out || (BitOf(a).Functional? && Owed(s, ss[k].owed)))
      && (Notice(s.matterEndpoint, a) in out <==> ValueAt(s, a).Some? && BitOf(a) in s.pending)
  {
    hide IsRun, ValueAt, NoticesOf, Notices;
    InvAlways(ss, steps, k);
    ListedIffPending(ss[k].slots, i, a);
  }

  // Endpoints are distinct, so a notice is about one slot.
  lemma ListedIffPending(slots: seq<Slot>, i: nat, a: Attribute)
    requires Ascending(slots) && i < |slots|
    ensures Notice(slots[i].matterEndpoint, a) in Notices(slots) <==>
      ValueAt(slots[i], a).Some? && BitOf(a) in slots[i].pending
  {
    hide ValueAt, Notices, NoticesOf;
    var n := Notice(slots[i].matterEndpoint, a);
    NoticesIff(slots, n);
    NoticesOfIff(slots[i], n);
    if j :| 0 <= j < |slots| && n in NoticesOf(slots[j]) {
      NoticesOfIff(slots[j], n);
      assert i < j || j < i || i == j;
    }
  }

  // Right after a drain controllers are up to date on every slot no handler is about to announce.
  lemma DrainCatchesUp(ss: seq<Sys>, steps: seq<Step>, k: nat, i: nat)
    requires IsRun(ss, steps) && k < |steps| && steps[k].Drain? && i < |ss[k + 1].slots|
    ensures |ss[k + 1].seen| == |ss[k + 1].slots| == |ss[k].slots|
    ensures var s, e := ss[k + 1].slots[i], ss[k + 1].seen[i];
      && s == ss[k].slots[i].(pending := {})
      && (forall a: Attribute :: ValueAt(s, a).Some? && !(BitOf(a).Functional? && Owed(s, ss[k + 1].owed)) ==>
            Knows(e, s, a))
      && (!Owed(s, ss[k + 1].owed) ==> e == SeenNow(s))
  {
    hide ValueAt, Notices;
    InvAlways(ss, steps, k + 1);
  }

  ghost predicate ValueChanged(before: seq<Slot>, after: seq<Slot>) {
    exists i :: 0 <= i < |before| && i < |after| && after[i].kind != before[i].kind
  }

  // Report bits appear only where the source notifies: with a push that changed a value, or
  // with a rebuild whose new table has some. A drain leaves none.
  lemma BitsAppearWithNotify(ss: seq<Sys>, steps: seq<Step>, k: nat)
    requires IsRun(ss, steps) && k < |steps|
    ensures !AnyPending(ss[k].slots) && AnyPending(ss[k + 1].slots) ==>
      || steps[k].Swap?
      || (steps[k].Push? && ValueChanged(ss[k].slots, ss[k + 1].slots))
    ensures steps[k].Drain? ==> !AnyPending(ss[k + 1].slots)
  {
    hide KindAfterPush, CoverAfterCommand, RebuildTable, Read, Label;
    assert ss[k + 1] == After(ss[k], steps[k]);
    if !AnyPending(ss[k].slots) && AnyPending(ss[k + 1].slots) {
      var i :| 0 <= i < |ss[k + 1].slots| && ss[k + 1].slots[i].pending != {};
      assert steps[k].Swap? || ss[k].slots[i].pending == {};
    }
  }

  // ---------- A rebuild loses nothing ----------

  // The swapped-in table is built from the table as it is at the swap, although it was copied
  // earlier: an export that stays bridged with its functional cluster keeps its values and
  // every pending report, and its data versions stay or move forward by one.
  lemma RebuildLosesNothing(ss: seq<Sys>, steps: seq<Step>, k: nat, i: nat, j: nat)
    requires IsRun(ss, steps) && k < |steps| && steps[k].Swap?
    requires i < |ss[k].slots| && j < |ss[k + 1].slots|
    requires ss[k].slots[i].exp.exportId == ss[k + 1].slots[j].exp.exportId
    ensures var o, n := ss[k].slots[i], ss[k + 1].slots[j];
      && (ClusterOf(o.kind) == ClusterOf(n.kind) ==> n.kind == o.kind)
      && o.pending <= n.pending
      && n.functionalDataver == o.functionalDataver
      && (n.infoDataver == o.infoDataver || n.infoDataver == Next32(o.infoDataver))
      && (n.descDataver == o.descDataver || n.descDataver == Next32(o.descDataver))
  {
    hide Rebuild, Place, Sort, Candidates, Coherent, Label;
    InvAlways(ss, steps, k);
    var d, o := ss[k].guard.value, ss[k].slots[i];
    RebuiltPlaces(d.exports, ss[k].slots, d.seeds);
    var p := Bridged(d.exports)[j];
    assert FindExport(ss[k].slots, p.exp.exportId) == Some(i);
    RebuildReports(p.exp, p.endpoint, o, d.seeds(p.exp.exportId));
    InvAlways(ss, steps, k + 1);
  }

  // ---------- Command conservation ----------

  // The HA commands controllers asked for, in order, over the first n steps.
  ghost function Issued(ss: seq<Sys>, steps: seq<Step>, n: nat): seq<CommandRequest>
    requires n <= |steps| && |ss| == |steps| + 1
  {
    if n == 0 then []
    else
      var step := steps[n - 1];
      Issued(ss, steps, n - 1) + if step.Act? then ActRequests(ss[n - 1].slots, step.endpoint, step.action) else []
  }

  // Drained commands followed by the queue are exactly the accepted controller actions, in
  // order: nothing is lost or repeated, and pushes and rebuilds add nothing.
  lemma {:induction false} CommandsConserved(ss: seq<Sys>, steps: seq<Step>, n: nat)
    requires IsRun(ss, steps) && n <= |steps|
    ensures ss[n].taken + ss[n].commands == Issued(ss, steps, n)
  {
    hide ActRequests, RebuildTable, PushTable, ActTable, Target;
    if n > 0 {
      CommandsConserved(ss, steps, n - 1);
      assert ss[n - 1 + 1] == After(ss[n - 1], steps[n - 1]);
    }
  }

  // What one action does: a device that takes it queues a single request for its export and
  // shows the command, a requested position being the slot's new target; any other is left
  // alone, and so is every other slot.
  lemma QueuedRequestMatchesSlot(ss: seq<Sys>, steps: seq<Step>, k: nat, i: nat)
    requires IsRun(ss, steps) && k < |steps| && steps[k].Act?
    requires i < |ss[k].slots| && ss[k].slots[i].matterEndpoint == steps[k].endpoint
    ensures |ss[k + 1].slots| == |ss[k].slots|
    ensures forall j :: 0 <= j < |ss[k].slots| && j != i ==> ss[k + 1].slots[j] == ss[k].slots[j]
    ensures var a, s, s', queued := steps[k].action, ss[k].slots[i], ss[k + 1].slots[i],
      ActRequests(ss[k].slots, steps[k].endpoint, steps[k].action);
      if !Takes(s.exp.type_, a) then queued == [] && s' == s
      else
        && s' == s.(kind := s'.kind, functionalDataver := s'.functionalDataver)
        && CommandShown(Read(s.kind), Read(s'.kind), a)
        && (if a.SetOnOff? && s'.kind == s.kind then s' == s else VersionMoved(s, s'))
        && match a
           case SetOnOff(on) => queued == [CommandRequest(s.exp.exportId, OnOffCommand, Some(on), None, None)]
           case MoveCover(kind, ha) =>
             && |queued| == 1 && s'.kind.CoverKind?
             && queued[0] == CommandRequest(s.exp.exportId, kind, None, None,
                  if kind.CoverPosition? then Some(s'.kind.target) else None)
  {
    hide Coherent, Label, Read, CommandShown;
    InvAlways(ss, steps, k);
    assert FindEndpoint(ss[k].slots, steps[k].endpoint) == Some(i);
    assert SlotOk(ss[k].slots[i]);
    ActionReads(ss[k].slots[i], steps[k].action);
    ChangeMovesVersion(ss[k].slots[i], [], steps[k].action);
  }

  // ---------- Lift, end to end ----------

  lemma LiftArithmetic(p: U16)
    requires p <= 10_000
    ensures Percent100thsToHaPosition(p) == (10_000 - p) / 100 && 0 <= (10_000 - p) / 100 <= 100
    ensures HaPositionToPercent100ths((10_000 - p) / 100) == (p + 99) / 100 * 100
  {
  }

  // A controller's lift percentage p becomes an HA command for floor((10000 - p) / 100), reads
  // back as p rounded up to a whole percent, and settles there once HA reports that position
  // with a state other than "opening" or "closing".
  lemma LiftEndToEnd(slots: seq<Slot>, ep: U16, p: U16, i: nat, states: seq<HaStateValue>)
    requires Ascending(slots) && i < |slots| && slots[i].matterEndpoint == ep && slots[i].kind.CoverKind?
    requires p <= 10_000
    requires var st := PrimaryState(slots[i].exp, states);
      && st.Some? && st.value.currentPosition == Unsigned((10_000 - p) / 100)
      && !Spells(st.value.state, "opening") && !Spells(st.value.state, "closing")
    ensures var a := MoveCover(CoverPosition, Some(Percent100thsToHaPosition(p)));
      var moved := ActTable(slots, ep, a);
      var settled := SlotAfterPush(moved[i], states);
      var rounded := (p + 99) / 100 * 100;
      && ActRequests(slots, ep, a) ==
        [CommandRequest(slots[i].exp.exportId, CoverPosition, None, None, Some((10_000 - p) / 100))]
      && Read(moved[i].kind).LiftReading? && Read(moved[i].kind).target == rounded
      && Read(settled.kind) == LiftReading(rounded, rounded, Stopped)
  {
    hide Percent100thsToHaPosition, HaPositionToPercent100ths, HaCoverFromState, PrimaryState, Spells;
    var said := PrimaryState(slots[i].exp, states).value;
    assert FindEndpoint(slots, ep) == Some(i);
    LiftArithmetic(p);
    HaCoverReads(said);
    assert PositionGiven(said.currentPosition, (10_000 - p) / 100);
  }
}
