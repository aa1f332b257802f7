// The slot table and the run loop together: the steps of PlaneRuns that the loop reacts to move
// both, so the loop's report bits and surface changes are those of the real table.
module PlaneLoopRuns {
  import opened Wrappers
  import opened Model
  import opened Slots
  import opened SlotTable
  import P = PlaneRuns
  import L = StackLoop

  datatype Joint = Joint(table: P.Sys, loop: L.Loop)

  datatype Step = OnTable(p: P.Step) | OnLoop(l: L.Step)

  // What a table step is to the loop: a swap tells whether the surface changed and reports are
  // pending, a push that changed a value sets bits, a drain takes them.
  function LoopPart(t: P.Sys, p: P.Step): Option<L.Step>
    requires P.Enabled(t, p)
  {
    match p
    case Swap => Some(L.WriterSwaps(Surfaces(t.slots) != Surfaces(t.guard.value.slots),
      AnyPending(t.guard.value.slots)))
    case Push(id, states) => if PushTable(t.slots, id, states) != t.slots then Some(L.WriterSetsBits) else None
    case Drain => Some(L.DrainReports)
    case _ => None
  }

  // The loop steps that stand for a table step never happen without it.
  predicate IsTablePart(l: L.Step) {
    l.WriterSwaps? || l.WriterSetsBits? || l.DrainReports?
  }

  predicate Enabled(j: Joint, step: Step) {
    match step
    case OnTable(p) =>
      && |j.table.seen| == |j.table.slots|
      && P.Enabled(j.table, p)
      && (LoopPart(j.table, p).Some? ==> L.Enabled(j.loop, LoopPart(j.table, p).value))
      && (p.Copy? ==> DistinctIds(p.exports))
    case OnLoop(l) => !IsTablePart(l) && L.Enabled(j.loop, l)
  }

  function After(j: Joint, step: Step): Joint
    requires Enabled(j, step)
  {
    match step
    case OnTable(p) =>
      var l := LoopPart(j.table, p);
      Joint(P.After(j.table, p), if l.Some? then L.After(j.loop, l.value) else j.loop)
    case OnLoop(l) => Joint(j.table, L.After(j.loop, l))
  }

  ghost predicate IsRun(js: seq<Joint>, steps: seq<Step>) {
    && |js| == |steps| + 1
    && P.Init(js[0].table) && L.Init(js[0].loop)
    && forall k :: 0 <= k < |steps| ==> Enabled(js[k], steps[k]) && js[k + 1] == After(js[k], steps[k])
  }

  // Rebuilds among the first n steps that swapped in a different surface.
  ghost function SurfaceSwaps(js: seq<Joint>, steps: seq<Step>, n: nat): nat
    requires n <= |steps| && |js| == |steps| + 1
  {
    if n == 0 then 0
    else
      var changed := steps[n - 1] == OnTable(P.Swap) && Surfaces(js[n - 1].table.slots) != Surfaces(js[n].table.slots);
      SurfaceSwaps(js, steps, n - 1) + if changed then 1 else 0
  }

  ghost predicate Inv(j: Joint) {
    P.Inv(j.table) && L.Inv(j.loop) && j.loop.reportBits == AnyPending(j.table.slots)
  }

  // ---------- The coupling ----------

  lemma SamePending(a: seq<Slot>, b: seq<Slot>)
    requires |a| == |b| && forall i :: 0 <= i < |a| ==> b[i].pending == a[i].pending
    ensures AnyPending(a) == AnyPending(b)
  {
    if i :| 0 <= i < |a| && a[i].pending != {} {
      assert b[i].pending != {};
    }
  }

  // Only swaps, changing pushes and drains move the pending bits of the table.
  lemma PendingOtherwiseKept(t: P.Sys, p: P.Step)
    requires |t.seen| == |t.slots| && P.Enabled(t, p) && LoopPart(t, p).None?
    ensures AnyPending(P.After(t, p).slots) == AnyPending(t.slots)
  {
    hide RebuildTable, RequestFor, CoverAfterCommand, Read, AnyPending, SlotAfterPush;
    SamePending(t.slots, P.After(t, p).slots);
  }

  lemma ChangingPushPends(t: P.Sys, id: Uuid, states: seq<HaStateValue>)
    requires |t.seen| == |t.slots| && t.guard.None? && PushTable(t.slots, id, states) != t.slots
    ensures AnyPending(P.After(t, P.Push(id, states)).slots)
  {
    hide KindAfterPush;
    var i := FindExport(t.slots, id).value;
    var slots := P.After(t, P.Push(id, states)).slots;
    assert SlotAfterPush(t.slots[i], states) != t.slots[i];
    assert Functional in slots[i].pending;
  }

  lemma DrainLeavesNone(t: P.Sys)
    requires |t.seen| == |t.slots| && t.guard.None?
    ensures !AnyPending(P.After(t, P.Drain).slots)
  {
  }

  lemma CouplingStep(j: Joint, step: Step)
    requires Enabled(j, step) && j.loop.reportBits == AnyPending(j.table.slots)
    ensures After(j, step).loop.reportBits == AnyPending(After(j, step).table.slots)
  {
    hide RebuildTable, PushTable, AnyPending, Surfaces;
    match step
    case OnLoop(l) => LoopKeepsBits(j.loop, l);
    case OnTable(p) =>
      if LoopPart(j.table, p).None? {
        PendingOtherwiseKept(j.table, p);
      } else if p.Push? {
        ChangingPushPends(j.table, p.id, p.states);
      } else if p.Drain? {
        DrainLeavesNone(j.table);
      }
  }

  lemma LoopKeepsBits(s: L.Loop, l: L.Step)
    requires L.Enabled(s, l) && !IsTablePart(l)
    ensures L.After(s, l).reportBits == s.reportBits && L.After(s, l).changes == s.changes
  {
  }

  lemma InvStep(j: Joint, step: Step)
    requires Inv(j) && Enabled(j, step)
    ensures Inv(After(j, step))
  {
    hide P.Inv, L.Inv, P.After, L.After, P.Enabled, L.Enabled, LoopPart, AnyPending;
    CouplingStep(j, step);
    match step
    case OnTable(p) =>
      P.InvStep(j.table, p);
      if LoopPart(j.table, p).Some? {
        L.InvStep(j.loop, LoopPart(j.table, p).value);
      }
    case OnLoop(l) => L.InvStep(j.loop, l);
  }

  lemma InitInv(j: Joint)
    requires P.Init(j.table) && L.Init(j.loop)
    ensures Inv(j) && j.loop.changes == 0
  {
    P.InitInv(j.table);
    L.InitInv(j.loop);
  }

  lemma ChangesStep(j: Joint, step: Step)
    requires Enabled(j, step)
    ensures After(j, step).loop.changes == j.loop.changes
      + if step == OnTable(P.Swap) && Surfaces(j.table.slots) != Surfaces(After(j, step).table.slots) then 1 else 0
  {
    hide RebuildTable, PushTable, AnyPending, Surfaces;
    if step.OnLoop? {
      LoopKeepsBits(j.loop, step.l);
    }
  }

  lemma {:induction false} InvAlways(js: seq<Joint>, steps: seq<Step>, k: nat)
    requires IsRun(js, steps) && k < |js|
    ensures Inv(js[k]) && js[k].loop.changes == SurfaceSwaps(js, steps, k)
  {
    hide Inv, After, Enabled, Surfaces;
    if k == 0 {
      InitInv(js[0]);
    } else {
      InvAlways(js, steps, k - 1);
      assert js[k - 1 + 1] == After(js[k - 1], steps[k - 1]);
      InvStep(js[k - 1], steps[k - 1]);
      ChangesStep(js[k - 1], steps[k - 1]);
    }
  }

  // ---------- A joint run, seen from the loop, is a run of the loop ----------

  function LoopStep(j: Joint, step: Step): Option<L.Step>
    requires Enabled(j, step)
  {
    match step
    case OnTable(p) => LoopPart(j.table, p)
    case OnLoop(l) => Some(l)
  }

  ghost function LoopSteps(js: seq<Joint>, steps: seq<Step>, n: nat): seq<L.Step>
    requires IsRun(js, steps) && n <= |steps|
  {
    if n == 0 then []
    else
      var l := LoopStep(js[n - 1], steps[n - 1]);
      LoopSteps(js, steps, n - 1) + if l.Some? then [l.value] else []
  }

  ghost function LoopStates(js: seq<Joint>, steps: seq<Step>, n: nat): (r: seq<L.Loop>)
    requires IsRun(js, steps) && n <= |steps|
    ensures |r| == |LoopSteps(js, steps, n)| + 1
  {
    if n == 0 then [js[0].loop]
    else LoopStates(js, steps, n - 1) + if LoopStep(js[n - 1], steps[n - 1]).Some? then [js[n].loop] else []
  }

  lemma {:induction false} LoopRun(js: seq<Joint>, steps: seq<Step>, n: nat)
    requires IsRun(js, steps) && n <= |steps|
    ensures var ss, ls := LoopStates(js, steps, n), LoopSteps(js, steps, n);
      L.IsRun(ss, ls) && ss[|ls|] == js[n].loop
  {
    hide L.After, L.Enabled, L.Init, P.After, P.Enabled, LoopPart, IsTablePart;
    if n > 0 {
      LoopRun(js, steps, n - 1);
      assert js[n - 1 + 1] == After(js[n - 1], steps[n - 1]);
    }
  }

  // The newest generation whose bump was the last to fail.
  ghost function LastFailed(js: seq<Joint>, steps: seq<Step>, n: nat): nat
    requires IsRun(js, steps) && n <= |steps|
  {
    var ls := LoopSteps(js, steps, n);
    L.LastFailed(LoopStates(js, steps, n), ls, |ls|)
  }

  // ---------- The loop's theorems, about the real table ----------

  // The stack thread never parks on a slot with a pending report, a posted request or a
  // generation without a permit or a writer about to notify; only a generation whose last bump
  // failed waits for the next wake-up.
  lemma NoMissedWakeUp(js: seq<Joint>, steps: seq<Step>, k: nat)
    requires IsRun(js, steps) && k < |js| && js[k].loop.pc.Parked?
    requires || AnyPending(js[k].table.slots) || js[k].loop.mailbox
             || Max(js[k].loop.applied, LastFailed(js, steps, k)) < js[k].loop.requested
    ensures L.WakeComing(js[k].loop)
  {
    assert |js| == |steps| + 1;
    hide IsRun, AnyPending, LoopSteps, LoopStates, L.IsRun, L.LastFailed;
    InvAlways(js, steps, k);
    LoopRun(js, steps, k);
    L.NoMissedWakeUp(LoopStates(js, steps, k), LoopSteps(js, steps, k), |LoopSteps(js, steps, k)|);
  }

  // Put together with report coherence: while a parked thread has not been told to wake, nothing
  // a controller would read differs from what it was last told, save for a command whose own
  // handler is about to announce it.
  lemma UnreportedChangeWakes(js: seq<Joint>, steps: seq<Step>, k: nat, i: nat, a: Attribute)
    requires IsRun(js, steps) && k < |js| && js[k].loop.pc.Parked? && !L.WakeComing(js[k].loop)
    requires i < |js[k].table.slots|
    ensures |js[k].table.seen| == |js[k].table.slots|
    ensures var s, e := js[k].table.slots[i], js[k].table.seen[i];
      && (a in e <==> ValueAt(s, a).Some?)
      && (a in e ==> e[a] == ValueAt(s, a).value || (BitOf(a).Functional? && P.Owed(s, js[k].table.owed)))
  {
    hide IsRun, ValueAt;
    InvAlways(js, steps, k);
    var s := js[k].table.slots[i];
    assert s.pending == {};
    assert P.Coherent(s, js[k].table.seen[i], js[k].table.owed);
  }

  ghost predicate BumpedInRun(ss: seq<L.Loop>, ls: seq<L.Step>, g: nat)
    requires |ss| == |ls| + 1
  {
    exists r: nat, b: nat, e: nat :: r < b < e && L.RequestsAt(ss, ls, r, g) && L.BumpsAt(ss, ls, b, e)
  }

  // Every rebuild that swapped in a different surface has requested a generation, except those
  // whose writer is just about to; and every applied generation was followed, in the loop's own
  // run, by a successful bump that began after its request.
  lemma NoSurfaceChangeDropped(js: seq<Joint>, steps: seq<Step>, k: nat)
    requires IsRun(js, steps) && k < |js|
    ensures var s := js[k].loop;
      && SurfaceSwaps(js, steps, k) == s.requested + s.toRequest
      && s.applied <= s.requested == |s.requestedAt|
      && forall g :: 1 <= g <= s.applied ==>
        BumpedInRun(LoopStates(js, steps, k), LoopSteps(js, steps, k), g)
  {
    assert |js| == |steps| + 1;
    hide IsRun, Surfaces, P.Inv, L.BumpedSince, LoopSteps, LoopStates, L.IsRun, L.RequestsAt, L.BumpsAt;
    InvAlways(js, steps, k);
    LoopRun(js, steps, k);
    var ss, ls := LoopStates(js, steps, k), LoopSteps(js, steps, k);
    forall g | 1 <= g <= js[k].loop.applied
      ensures BumpedInRun(ss, ls, g)
    {
      L.AppliedWasBumped(ss, ls, |ls|, g);
    }
  }

  // ---------- The sequential pieces ----------

  // Copy, swap, request and notify in one go have exactly the effect ExportPlane.SetExports
  // promises: the rebuilt table, the generation raised on a changed surface, the permit stored
  // when the surface changed or a report is pending.
  lemma UninterruptedRebuild(j: Joint, exports: seq<Export>, seeds: Seeds)
    requires |j.table.seen| == |j.table.slots| && j.table.guard.None? && DistinctIds(exports)
    ensures
      var slots := RebuildTable(exports, j.table.slots, seeds);
      var changed := Surfaces(j.table.slots) != Surfaces(slots);
      var j1 := After(j, OnTable(P.Copy(exports, seeds)));
      Enabled(j1, OnTable(P.Swap)) &&
      var j2 := After(j1, OnTable(P.Swap));
      (changed ==> Enabled(j2, OnLoop(L.WriterRequests))) &&
      var j3 := if changed then After(j2, OnLoop(L.WriterRequests)) else j2;
      (changed || AnyPending(slots) ==> Enabled(j3, OnLoop(L.WriterNotifies))) &&
      var j4 := if changed || AnyPending(slots) then After(j3, OnLoop(L.WriterNotifies)) else j3;
      && j4.table.slots == slots && j4.table.guard.None? && j4.table.commands == j.table.commands
      && j4.loop.requested == j.loop.requested + (if changed then 1 else 0)
      && j4.loop.permit == (j.loop.permit || changed || AnyPending(slots))
      && j4.loop.applied == j.loop.applied && j4.loop.mailbox == j.loop.mailbox
      && j4.loop.toRequest == j.loop.toRequest && j4.loop.toNotify == j.loop.toNotify
  {
    hide RebuildTable, AnyPending, Surfaces;
  }

  // A push and its notification in one go have the effect ExportPlane.ApplyState promises: the
  // table after the push, and a permit when a value changed.
  lemma UninterruptedPush(j: Joint, id: Uuid, states: seq<HaStateValue>)
    requires |j.table.seen| == |j.table.slots| && j.table.guard.None?
    ensures
      var slots := PushTable(j.table.slots, id, states);
      var changed := slots != j.table.slots;
      var j1 := After(j, OnTable(P.Push(id, states)));
      (changed ==> Enabled(j1, OnLoop(L.WriterNotifies))) &&
      var j2 := if changed then After(j1, OnLoop(L.WriterNotifies)) else j1;
      && j2.table.slots == slots && j2.table.commands == j.table.commands
      && j2.loop.permit == (j.loop.permit || changed)
      && j2.loop.toNotify == j.loop.toNotify && j2.loop.requested == j.loop.requested
  {
    hide PushTable;
  }
}
