// The export plane object shared by the IPC threads and the Matter stack thread. Each method
// is one critical section of the source; what interleavings of them keep is proved in
// PlaneRuns, StackLoop, Mailbox and PairingWindow.
module Plane {
  import opened Wrappers
  import opened Model
  import opened OnOffMap
  import opened WindowCovering
  import opened Slots
  import opened SlotTable
  import PW = PairingWindow

  class ExportPlane {
    var slots: seq<ExportSlot>
    var known: set<Uuid>
    // The one stored permit of the cross-thread `Notify`.
    var permit: bool
    var commands: seq<CommandRequest>
    var configRequested: nat
    var configApplied: nat
    var aggregatorDataver: U32
    var windowDeadline: nat
    var fabricCount: Byte

    ghost predicate Valid()
      reads this
    {
      && (forall i, j :: 0 <= i < j < |slots| ==> slots[i] != slots[j])
      && (forall i, j :: 0 <= i < j < |slots| ==> slots[i].matterEndpoint < slots[j].matterEndpoint)
    }

    function Views(): (r: seq<Slot>)
      reads this, slots
      ensures |r| == |slots| && forall i :: 0 <= i < |r| ==> r[i] == slots[i].View()
    {
      seq(|slots|, i requires 0 <= i < |slots| reads this, slots => slots[i].View())
    }

    function Window(): PW.Window
      reads this
    {
      PW.Window(windowDeadline, fabricCount)
    }

    constructor (aggregatorSeed: U32)
      ensures Valid() && slots == [] && known == {} && !permit && commands == []
      ensures configRequested == configApplied == 0 && windowDeadline == 0 && fabricCount == 0
    {
      slots, known, permit, commands := [], {}, false, [];
      configRequested, configApplied, aggregatorDataver := 0, 0, aggregatorSeed;
      windowDeadline, fabricCount := 0, 0;
    }

    // The rebuilt table carries every surviving slot's state over by value; the configuration
    // generation rises exactly when the surfaces differ.
    method SetExports(exports: seq<Export>, seeds: Seeds)
      requires Valid()
      modifies this
      ensures Valid() && fresh(slots)
      ensures Views() == RebuildTable(exports, old(Views()), seeds)
      ensures forall id :: id in known <==> exists e :: e in exports && e.exportId == id
      ensures configRequested == old(configRequested) + if Surfaces(Views()) != Surfaces(old(Views())) then 1 else 0
      ensures aggregatorDataver ==
        if Surfaces(Views()) != Surfaces(old(Views())) then Next32(old(aggregatorDataver)) else old(aggregatorDataver)
      ensures permit == (old(permit) || Surfaces(Views()) != Surfaces(old(Views())) || AnyPending(Views()))
      ensures commands == old(commands) && configApplied == old(configApplied) && Window() == old(Window())
    {
      hide Place, Sort, Candidates, RebuildPlaced, Taken, Surfaces;
      var bridged := Sort(Candidates(exports));
      var next := RebuildSlots(bridged, seeds);
      PlaceAscendsAfterSort(exports);
      var previous := Views();
      ghost var placed := Place(bridged);
      assert forall i :: 0 <= i < |next| ==> next[i].matterEndpoint == placed[i].endpoint;
      slots, known := next, set e | e in exports :: e.exportId;
      var current := Views();
      assert current == RebuildTable(exports, previous, seeds);
      var surfaceChanged := SurfaceChanged(previous, current);
      if surfaceChanged {
        aggregatorDataver := Next32(aggregatorDataver);
        configRequested := configRequested + 1;
      }
      if surfaceChanged || AnyPending(current) {
        permit := true;
      }
    }

    // The tables differ in length, or somewhere along their common length in a surface.
    static method SurfaceChanged(previous: seq<Slot>, next: seq<Slot>) returns (changed: bool)
      ensures changed == (Surfaces(previous) != Surfaces(next))
    {
      if |previous| != |next| {
        assert |Surfaces(previous)| != |Surfaces(next)|;
        return true;
      }
      var i := 0;
      while i < |previous|
        invariant 0 <= i <= |previous|
        invariant Surfaces(previous)[..i] == Surfaces(next)[..i]
      {
        if SurfaceOf(previous[i]) != SurfaceOf(next[i]) {
          assert Surfaces(previous)[i] != Surfaces(next)[i];
          return true;
        }
        i := i + 1;
      }
      assert Surfaces(previous)[..i] == Surfaces(previous) && Surfaces(next)[..i] == Surfaces(next);
      changed := false;
    }

    // A new slot carrying the state of the slot the export had, if any.
    method NewSlot(e: Export, ep: U16, seeds: Seeds) returns (slot: ExportSlot)
      ensures fresh(slot) && slot.matterEndpoint == ep
      ensures slot.View() == RebuildPlaced(Placed(e, ep), Views(), seeds)
    {
      var at := FindExport(Views(), e.exportId);
      slot := new ExportSlot(e, ep, if at.Some? then slots[at.value] else null, seeds(e.exportId));
    }

    // The rebuild loop: skip exports without a usable or free endpoint, copy state for the rest.
    method RebuildSlots(bridged: seq<Export>, seeds: Seeds) returns (next: seq<ExportSlot>)
      ensures fresh(next)
      ensures |next| == |Place(bridged)|
      ensures forall i, j :: 0 <= i < j < |next| ==> next[i] != next[j]
      ensures forall i :: 0 <= i < |next| ==>
        next[i].matterEndpoint ==
          Place(bridged)[i].endpoint && next[i].View() == RebuildPlaced(Place(bridged)[i], Views(), seeds)
    {
      hide Place, RebuildPlaced, Taken;
      next := [];
      var taken: set<U16> := {};
      var i := 0;
      ghost var previous, placed := Views(), [];
      PlaceStart(bridged);
      while i < |bridged|
        invariant 0 <= i <= |bridged|
        invariant Views() == previous && placed == Place(bridged[..i])
        invariant fresh(next) && |next| == |placed|
        invariant forall j, k :: 0 <= j < k < |next| ==> next[j] != next[k]
        invariant forall k :: 0 <= k < |next| ==>
          next[k].matterEndpoint == placed[k].endpoint && next[k].View() == RebuildPlaced(placed[k], previous, seeds)
        invariant forall ep :: ep in taken <==> Taken(placed, ep)
      {
        var e := bridged[i];
        PlaceStep(bridged, i);
        var ep := MatterEndpoint(e);
        if ep.Some? && ep.value > AGGREGATOR_ENDPOINT_ID && ep.value !in taken {
          taken := taken + {ep.value};
          var slot := NewSlot(e, ep.value, seeds);
          TakenStep(placed, Placed(e, ep.value));
          next, placed := next + [slot], placed + [Placed(e, ep.value)];
        }
        i := i + 1;
      }
      assert bridged[..i] == bridged;
    }

    // Binary search by endpoint over the ascending table agrees with a linear scan.
    method SlotAt(ep: U16) returns (r: Option<nat>)
      requires Valid()
      ensures r == FindEndpoint(Views(), ep)
    {
      var lo, hi := 0, |slots|;
      while lo < hi
        invariant 0 <= lo <= hi <= |slots|
        invariant forall i :: 0 <= i < lo ==> slots[i].matterEndpoint < ep
        invariant forall i :: hi <= i < |slots| ==> ep < slots[i].matterEndpoint
      {
        var mid := (lo + hi) / 2;
        if slots[mid].matterEndpoint < ep {
          lo := mid + 1;
        } else if ep < slots[mid].matterEndpoint {
          hi := mid;
        } else {
          return Some(mid);
        }
      }
      r := None;
    }

    // HA pushes state: never queues a command.
    method ApplyState(exportId: Uuid, states: seq<HaStateValue>) returns (applied: nat)
      requires Valid()
      modifies this`permit, slots
      ensures Valid()
      ensures Views() == PushTable(old(Views()), exportId, states)
      ensures applied == if FindExport(old(Views()), exportId).Some? || exportId in known then |states| else 0
      ensures permit == (old(permit) || exists i :: 0 <= i < |slots| && slots[i].kind != old(slots[i].kind))
    {
      var at := FindExport(Views(), exportId);
      if at.None? {
        return if exportId in known then |states| else 0;
      }
      var changed := slots[at.value].ApplyPush(states);
      assert Views() == PushTable(old(Views()), exportId, states);
      if changed {
        permit := true;
      }
      applied := |states|;
    }

    // One slot takes an accepted action; every other slot is left alone.
    method ActOnSlot(i: nat, a: Action)
      requires Valid() && i < |slots| && Accepts(Views()[i], a)
      modifies slots[i]
      ensures Views() == old(Views())[i := SlotAfterAction(old(Views())[i], a)]
    {
      hide SlotAfterAction;
      slots[i].ApplyAction(a);
      assert slots[i].View() == SlotAfterAction(old(Views())[i], a);
    }

    method ApplyControllerOnOff(ep: U16, on: bool) returns (ok: bool)
      requires Valid()
      modifies this`commands, slots
      ensures Valid()
      ensures Views() == ActTable(old(Views()), ep, SetOnOff(on))
      ensures commands == old(commands) + ActRequests(old(Views()), ep, SetOnOff(on))
      ensures ok == Target(old(Views()), ep, SetOnOff(on)).Some?
    {
      hide SlotAfterAction, FindEndpoint;
      var at := SlotAt(ep);
      if at.None? || !slots[at.value].kind.OnOffKind? {
        return false;
      }
      ActionKeepsExport(slots[at.value].View(), SetOnOff(on));
      ActOnSlot(at.value, SetOnOff(on));
      commands := commands + [OnOffRequest(slots[at.value].exp.exportId, on)];
      ok := true;
    }

    method ApplyControllerCover(ep: U16, kind: CommandKind, ha: Option<nat>) returns (ok: bool)
      requires Valid()
      modifies this`commands, slots
      ensures Valid()
      ensures Views() == ActTable(old(Views()), ep, MoveCover(kind, ha))
      ensures commands == old(commands) + ActRequests(old(Views()), ep, MoveCover(kind, ha))
      ensures ok == Target(old(Views()), ep, MoveCover(kind, ha)).Some?
    {
      hide SlotAfterAction, FindEndpoint;
      var at := SlotAt(ep);
      if at.None? || !slots[at.value].kind.CoverKind? || !IsCoverCommand(kind) {
        return false;
      }
      ActionKeepsExport(slots[at.value].View(), MoveCover(kind, ha));
      ActOnSlot(at.value, MoveCover(kind, ha));
      var slot := slots[at.value];
      assert slot.View() == Views()[at.value];
      var position := None;
      if kind.CoverPosition? {
        position := Some(Min(if ha.Some? then ha.value else slot.kind.target, 100));
      }
      commands := commands + [CommandRequest(slot.exp.exportId, kind, None, None, position)];
      ok := true;
    }

    // GoToLiftPercentage: out of range is rejected before anything is touched.
    method GoToLiftPercentage(ep: U16, percent: U16) returns (r: Result<bool, LiftError>)
      requires Valid()
      modifies this`commands, slots
      ensures Valid()
      ensures percent > 10_000 ==> r.Failure? && Views() == old(Views()) && commands == old(commands)
      ensures percent <= 10_000 ==>
        var a := MoveCover(CoverPosition, Some(Percent100thsToHaPosition(percent)));
        && r == Success(Target(old(Views()), ep, a).Some?)
        && Views() == ActTable(old(Views()), ep, a)
        && commands == old(commands) + ActRequests(old(Views()), ep, a)
    {
      var p := ValidateLift(percent);
      if p.Failure? {
        return Failure(p.error);
      }
      var ok := ApplyControllerCover(ep, CoverPosition, Some(Percent100thsToHaPosition(p.value)));
      r := Success(ok);
    }

    method TakeCommands() returns (r: seq<CommandRequest>)
      modifies this`commands
      ensures r == old(commands) && commands == []
    {
      r := commands;
      commands := [];
    }

    // Swap every slot's pending bits out and list the attributes they stand for.
    method DrainReports() returns (out: seq<Notice>)
      requires Valid()
      modifies slots
      ensures Valid()
      ensures out == Notices(old(Views())) && Views() == DrainTable(old(Views()))
    {
      hide NoticesOf, Notices;
      NoticesStart(Views());
      out := [];
      var i := 0;
      ghost var before := Views();
      while i < |slots|
        invariant 0 <= i <= |slots|
        invariant out == Notices(before[..i])
        invariant forall k :: 0 <= k < i ==> slots[k].View() == before[k].(pending := {})
        invariant forall k :: i <= k < |slots| ==> slots[k].View() == before[k]
      {
        NoticesStep(before, i);
        out := out + NoticesOf(slots[i].View());
        slots[i].pending := {};
        i := i + 1;
      }
      assert before[..i] == before;
    }

    // Compare-and-swap up to the acknowledged generation, never back. `loaded` is the first
    // load, which may be older than the value the swap meets.
    method AcknowledgeConfigGeneration(generation: nat, loaded: nat)
      requires loaded <= configApplied
      modifies this`configApplied
      ensures configApplied == Max(old(configApplied), generation)
    {
      var applied := loaded;
      while applied < generation
        invariant applied <= configApplied == old(configApplied)
        decreases generation - applied
      {
        if configApplied == applied {
          configApplied := generation;
          break;
        } else {
          applied := configApplied;
        }
      }
    }

    // ---------- Pairing window, on the stack thread ----------

    method NoteStartupCommissioningState(fabrics: Byte, now: nat)
      modifies this`windowDeadline, this`fabricCount
      ensures Window() == PW.AtStartup(fabrics, now)
    {
      fabricCount := fabrics;
      if fabrics == 0 {
        windowDeadline := PW.SaturatingAdd(now, PW.STARTUP_PAIRING_TIMEOUT_SECS);
      } else {
        windowDeadline := 0;
      }
    }

    method ApplyFabricSample(count: Byte, now: nat)
      modifies this`windowDeadline, this`fabricCount
      ensures Window() == PW.AfterSample(old(Window()), count, now)
    {
      var prev := fabricCount;
      fabricCount := count;
      if count > prev {
        windowDeadline := 0;
      }
      if windowDeadline != 0 && now >= windowDeadline {
        windowDeadline := 0;
      }
    }

    method ExecuteWindowOp(op: PW.WindowOp, env: PW.Env) returns (r: Result<(), PW.OpError>, calls: seq<PW.StackCall>)
      modifies this`windowDeadline, this`fabricCount
      ensures Window() == PW.AfterOp(old(Window()), op, env)
      ensures r == PW.ReplyTo(old(Window()), op, env)
      ensures calls == PW.CallsOf(old(Window()), op, env)
    {
      calls := [];
      match op {
        case Open(timeout) =>
          if PW.PairingOpen(Window(), env.askedAt) {
            return Success(()), calls;
          }
          fabricCount := env.fabricsBefore;
          calls := calls + [PW.OpenBasicCommWindow(timeout)];
          match env.openOutcome {
            case Opened =>
              fabricCount := env.fabricsAfter;
              windowDeadline := PW.SaturatingAdd(env.openedAt, timeout);
              r := Success(());
            case Busy =>
              r := Failure(PW.AnotherWindowActive);
            case OpenFailed =>
              r := Failure(PW.OpenError);
          }
        case Close =>
          if !PW.PairingOpen(Window(), env.askedAt) {
            windowDeadline := 0;
            return Success(()), calls;
          }
          calls := calls + [PW.CloseCommWindow];
          if env.closeOutcome.Some? {
            windowDeadline := 0;
            r := Success(());
          } else {
            r := Failure(PW.CloseError);
          }
      }
    }
  }

  lemma ActionKeepsExport(s: Slot, a: Action)
    requires Accepts(s, a)
    ensures SlotAfterAction(s, a).exp == s.exp
    ensures a.MoveCover? ==> SlotAfterAction(s, a).kind.CoverKind?
  {
  }

  lemma NoticesStart(slots: seq<Slot>)
    ensures Notices(slots[..0]) == []
  {
  }

  lemma NoticesStep(slots: seq<Slot>, i: nat)
    requires i < |slots|
    ensures Notices(slots[..i + 1]) == Notices(slots[..i]) + NoticesOf(slots[i])
  {
    assert slots[..i + 1][..i] == slots[..i];
  }

  lemma PlaceStart(bridged: seq<Export>)
    ensures Place(bridged[..0]) == [] && forall ep :: !Taken([], ep)
  {
  }

  lemma PlaceStep(bridged: seq<Export>, i: nat)
    requires i < |bridged|
    ensures var placed, ep := Place(bridged[..i]), MatterEndpoint(bridged[i]);
      Place(bridged[..i + 1]) ==
        if ep.Some? && ep.value > AGGREGATOR_ENDPOINT_ID && !Taken(placed, ep.value)
        then placed + [Placed(bridged[i], ep.value)]
        else placed
  {
    assert bridged[..i + 1][..i] == bridged[..i];
  }

  lemma TakenStep(placed: seq<Placed>, p: Placed)
    ensures forall ep :: Taken(placed + [p], ep) <==> Taken(placed, ep) || ep == p.endpoint
  {
    forall ep
      ensures Taken(placed + [p], ep) <==> Taken(placed, ep) || ep == p.endpoint
    {
      var r := placed + [p];
      if Taken(placed, ep) {
        var i :| 0 <= i < |placed| && placed[i].endpoint == ep;
        assert r[i].endpoint == ep;
      }
      assert r[|placed|] == p;
    }
  }

  lemma PlaceAscendsAfterSort(exports: seq<Export>)
    ensures PlacedAscending(Bridged(exports))
  {
    SortedCandidates(exports);
    PlaceAscends(Sort(Candidates(exports)));
  }
}
