// The stack thread's run loop against any number of writer threads: configuration generations,
// the stored wake-up permit, and the pending work it must not miss.
module StackLoop {
  import opened Model

  // The stack thread, statement by statement. `requested` is the value it loaded; `began` the
  // time its configuration bump started.
  datatype Pc =
    | Parked
    | Woken
    | LoadRequested
    | LoadApplied(requested: nat)
    | Bumping(requested: nat, began: nat)
    | Acknowledging(requested: nat, began: nat)
    | DrainingReports

  // Writer threads are counted by where they are: `toRequest` have swapped in a changed surface
  // and not yet requested its generation, `toNotify` have changed something and not yet called
  // `notify_one`.
  // `requestedAt[g]` is when generation g + 1 was requested; `bumps` are the start times of
  // successful bumps; `failedUpTo` is the newest generation covered by the last failed bump.
  // `changes` counts rebuilds whose surface differed. These four are history.
  datatype Loop = Loop(
    permit: bool,
    reportBits: bool,
    mailbox: bool,
    requested: nat,
    applied: nat,
    pc: Pc,
    toRequest: nat,
    toNotify: nat,
    clock: nat,
    requestedAt: seq<nat>,
    bumps: seq<nat>,
    failedUpTo: nat,
    changes: nat)

  datatype Step =
    | WriterSwaps(surfaceChanged: bool, workPending: bool)
    | WriterRequests
    | WriterSetsBits
    | WriterPosts
    | WriterClearsMailbox
    | WriterNotifies
    | Wake
    | Tick
    | DrainMailbox
    | LoadsRequested
    | LoadsApplied
    | BumpEnds(ok: bool)
    | Acknowledges
    | DrainReports

  predicate Enabled(s: Loop, step: Step) {
    match step
    case WriterSwaps(_, _) => true
    case WriterRequests => s.toRequest > 0
    case WriterSetsBits => true
    case WriterPosts => !s.mailbox
    case WriterClearsMailbox => true
    case WriterNotifies => s.toNotify > 0
    case Wake => s.pc.Parked? && s.permit
    case Tick => s.pc.Parked?
    case DrainMailbox => s.pc.Woken?
    case LoadsRequested => s.pc.LoadRequested?
    case LoadsApplied => s.pc.LoadApplied?
    case BumpEnds(_) => s.pc.Bumping?
    case Acknowledges => s.pc.Acknowledging?
    case DrainReports => s.pc.DrainingReports?
  }

  // Every step takes a tick of the clock.
  function After(s: Loop, step: Step): Loop
    requires Enabled(s, step)
  {
    Effect(s, step).(clock := s.clock + 1)
  }

  function Effect(s: Loop, step: Step): Loop
    requires Enabled(s, step)
  {
    match step
    // The swap under the write guard; the bits left are those of the new table. A rebuild with
    // neither a new surface nor pending reports ends here.
    case WriterSwaps(sc, wp) =>
      if sc then s.(reportBits := wp, changes := s.changes + 1, toRequest := s.toRequest + 1)
      else s.(reportBits := wp, toNotify := if wp then s.toNotify + 1 else s.toNotify)
    case WriterRequests =>
      s.(requested := s.requested + 1, requestedAt := s.requestedAt + [s.clock],
         toRequest := s.toRequest - 1, toNotify := s.toNotify + 1)
    case WriterSetsBits => s.(reportBits := true, toNotify := s.toNotify + 1)
    case WriterPosts => s.(mailbox := true, toNotify := s.toNotify + 1)
    // A caller that timed out empties the mailbox.
    case WriterClearsMailbox => s.(mailbox := false)
    case WriterNotifies => s.(permit := true, toNotify := s.toNotify - 1)
    case Wake => s.(permit := false, pc := Woken)
    case Tick => s.(pc := Woken)
    case DrainMailbox => s.(mailbox := false, pc := LoadRequested)
    case LoadsRequested => s.(pc := LoadApplied(s.requested))
    case LoadsApplied =>
      s.(pc := if s.pc.requested == s.applied then DrainingReports else Bumping(s.pc.requested, s.clock))
    case BumpEnds(ok) =>
      if ok then s.(pc := Acknowledging(s.pc.requested, s.pc.began), bumps := s.bumps + [s.pc.began])
      else s.(pc := DrainingReports, failedUpTo := s.pc.requested)
    case Acknowledges => s.(applied := Max(s.applied, s.pc.requested), pc := LoadRequested)
    case DrainReports => s.(reportBits := false, pc := Parked)
  }

  ghost predicate Init(s: Loop) {
    s == Loop(false, false, false, 0, 0, Parked, 0, 0, 0, [], [], 0, 0)
  }

  ghost predicate IsRun(ss: seq<Loop>, steps: seq<Step>) {
    && |ss| == |steps| + 1
    && Init(ss[0])
    && forall k :: 0 <= k < |steps| ==> Enabled(ss[k], steps[k]) && ss[k + 1] == After(ss[k], steps[k])
  }

  // ---------- Invariants ----------

  // A permit is stored, or some writer has yet to notify.
  predicate WakeComing(s: Loop) {
    s.permit || s.toRequest > 0 || s.toNotify > 0
  }

  // The value loaded by the run loop, at the program points that hold one.
  predicate HoldsLoad(pc: Pc) {
    pc.LoadApplied? || pc.Bumping? || pc.Acknowledging?
  }

  // Generation g was followed by a successful bump that began after it was requested.
  ghost predicate BumpedSince(s: Loop, g: nat)
    requires 1 <= g <= |s.requestedAt|
  {
    exists b :: b in s.bumps && s.requestedAt[g - 1] < b
  }

  // The bump under way began after every generation it covers was requested.
  ghost predicate BumpCovers(s: Loop)
    requires s.pc.Bumping? || s.pc.Acknowledging?
  {
    && s.applied < s.pc.requested <= |s.requestedAt|
    && s.pc.began < s.clock
    && forall g :: 0 <= g < s.pc.requested ==> s.requestedAt[g] < s.pc.began
  }

  ghost predicate CounterInv(s: Loop) {
    && |s.requestedAt| == s.requested
    && s.applied <= s.requested
    && s.failedUpTo <= s.requested
    && (HoldsLoad(s.pc) ==> s.applied <= s.pc.requested <= s.requested)
    && forall g :: 0 <= g < s.requested ==> s.requestedAt[g] < s.clock
  }

  ghost predicate BumpInv(s: Loop) {
    && (s.pc.Bumping? || s.pc.Acknowledging? ==> BumpCovers(s))
    && (s.pc.Acknowledging? ==> s.pc.began in s.bumps)
  }

  ghost predicate AppliedInv(s: Loop) {
    s.applied <= |s.requestedAt| && forall g :: 1 <= g <= s.applied ==> BumpedSince(s, g)
  }

  ghost predicate GenerationInv(s: Loop) {
    CounterInv(s) && BumpInv(s) && AppliedInv(s)
  }

  ghost predicate WakeInv(s: Loop) {
    && (s.pc.Parked? && s.reportBits ==> WakeComing(s))
    && (s.mailbox && !s.pc.Woken? ==> WakeComing(s))
    && (HoldsLoad(s.pc) && s.pc.requested < s.requested ==> WakeComing(s))
    && ((s.pc.Parked? || s.pc.DrainingReports?) && Max(s.applied, s.failedUpTo) < s.requested ==> WakeComing(s))
  }

  // Every rebuild that changed the surface has requested its generation or is about to.
  ghost predicate CountInv(s: Loop) {
    s.changes == s.requested + s.toRequest
  }

  ghost predicate Inv(s: Loop) {
    GenerationInv(s) && WakeInv(s) && CountInv(s)
  }

  lemma CounterStep(s: Loop, step: Step)
    requires CounterInv(s) && Enabled(s, step)
    ensures CounterInv(After(s, step))
    ensures s.applied <= After(s, step).applied && s.requested <= After(s, step).requested
  {
  }

  lemma BumpStep(s: Loop, step: Step)
    requires CounterInv(s) && BumpInv(s) && Enabled(s, step)
    ensures BumpInv(After(s, step))
  {
  }

  lemma BumpedStep(s: Loop, step: Step, g: nat)
    requires GenerationInv(s) && Enabled(s, step) && 1 <= g <= After(s, step).applied <= |After(s, step).requestedAt|
    ensures BumpedSince(After(s, step), g)
  {
    var s' := After(s, step);
    if g <= s.applied {
      assert BumpedSince(s, g);
      var b :| b in s.bumps && s.requestedAt[g - 1] < b;
      assert b in s'.bumps;
    } else {
      assert s.pc.began in s'.bumps && s'.requestedAt[g - 1] < s.pc.began;
    }
  }

  lemma GenerationStep(s: Loop, step: Step)
    requires GenerationInv(s) && Enabled(s, step)
    ensures GenerationInv(After(s, step))
    ensures s.applied <= After(s, step).applied && s.requested <= After(s, step).requested
  {
    hide After, Enabled, BumpInv, BumpedSince;
    CounterStep(s, step);
    BumpStep(s, step);
    forall g | 1 <= g <= After(s, step).applied
      ensures BumpedSince(After(s, step), g)
    {
      BumpedStep(s, step, g);
    }
  }

  lemma WakeStep(s: Loop, step: Step)
    requires Inv(s) && Enabled(s, step)
    ensures WakeInv(After(s, step))
  {
    hide BumpedSince, BumpCovers;
  }

  lemma CountStep(s: Loop, step: Step)
    requires CountInv(s) && Enabled(s, step)
    ensures CountInv(After(s, step))
  {
  }

  lemma InvStep(s: Loop, step: Step)
    requires Inv(s) && Enabled(s, step)
    ensures Inv(After(s, step))
  {
    GenerationStep(s, step);
    WakeStep(s, step);
    CountStep(s, step);
  }

  lemma InitInv(s: Loop)
    requires Init(s)
    ensures Inv(s)
  {
  }

  lemma {:induction false} InvAlways(ss: seq<Loop>, steps: seq<Step>, k: nat)
    requires IsRun(ss, steps) && k < |ss|
    ensures Inv(ss[k])
  {
    hide Inv, After, Enabled;
    if k == 0 {
      InitInv(ss[0]);
    } else {
      InvAlways(ss, steps, k - 1);
      assert ss[k - 1 + 1] == After(ss[k - 1], steps[k - 1]);
      InvStep(ss[k - 1], steps[k - 1]);
    }
  }

  // No surface change is ever dropped: in every reachable state each applied generation was
  // followed by a successful bump that began after it was requested, applied never overtakes
  // requested, and the changes not yet requested are exactly those of rebuilds in progress.
  lemma NoSurfaceChangeDropped(ss: seq<Loop>, steps: seq<Step>, k: nat)
    requires IsRun(ss, steps) && k < |ss|
    ensures var s := ss[k];
      && s.applied <= s.requested == |s.requestedAt|
      && s.changes == s.requested + s.toRequest
      && forall g :: 1 <= g <= s.applied ==> BumpedSince(s, g)
    ensures k < |steps| ==> ss[k].applied <= ss[k + 1].applied && ss[k].requested <= ss[k + 1].requested
  {
    InvAlways(ss, steps, k);
    if k < |steps| {
      GenerationStep(ss[k], steps[k]);
    }
  }

  // ---------- The history told by the steps ----------

  // Step j requested generation g.
  predicate RequestsAt(ss: seq<Loop>, steps: seq<Step>, j: nat, g: nat)
    requires |ss| == |steps| + 1
  {
    j < |steps| && steps[j].WriterRequests? && ss[j + 1].requested == g
  }

  // The bump that began with step b succeeded with step e.
  predicate BumpsAt(ss: seq<Loop>, steps: seq<Step>, b: nat, e: nat)
    requires |ss| == |steps| + 1
  {
    && b < e < |steps|
    && steps[b].LoadsApplied? && steps[e] == BumpEnds(true)
    && forall k :: b < k <= e ==> ss[k].pc.Bumping?
  }

  // The newest generation the last failed bump was for.
  function LastFailed(ss: seq<Loop>, steps: seq<Step>, n: nat): nat
    requires n <= |steps| && |ss| == |steps| + 1
  {
    if n == 0 then 0
    else if steps[n - 1] == BumpEnds(false) && ss[n - 1].pc.Bumping? then ss[n - 1].pc.requested
    else LastFailed(ss, steps, n - 1)
  }

  // The bump that began with step b succeeded before step n.
  ghost predicate Succeeded(ss: seq<Loop>, steps: seq<Step>, b: nat, n: nat)
    requires |ss| == |steps| + 1
  {
    exists e: nat :: e < n && BumpsAt(ss, steps, b, e)
  }

  ghost predicate ClockTrue(ss: seq<Loop>, steps: seq<Step>, n: nat)
    requires n <= |steps| && |ss| == |steps| + 1
  {
    ss[n].clock == n && ss[n].failedUpTo == LastFailed(ss, steps, n)
  }

  ghost predicate RequestsTrue(ss: seq<Loop>, steps: seq<Step>, n: nat)
    requires n <= |steps| && |ss| == |steps| + 1
  {
    && |ss[n].requestedAt| == ss[n].requested
    && forall g :: 0 <= g < |ss[n].requestedAt| ==>
      ss[n].requestedAt[g] < n && RequestsAt(ss, steps, ss[n].requestedAt[g], g + 1)
  }

  ghost predicate BumpingTrue(ss: seq<Loop>, steps: seq<Step>, n: nat)
    requires n <= |steps| && |ss| == |steps| + 1
  {
    ss[n].pc.Bumping? ==>
      && ss[n].pc.began < n && steps[ss[n].pc.began].LoadsApplied?
      && forall k :: ss[n].pc.began < k <= n ==> ss[k].pc.Bumping?
  }

  ghost predicate BumpsTrue(ss: seq<Loop>, steps: seq<Step>, n: nat)
    requires n <= |steps| && |ss| == |steps| + 1
  {
    forall b :: b in ss[n].bumps ==> Succeeded(ss, steps, b, n)
  }

  // Clock and history fields say what the steps did.
  ghost predicate HistoryTrue(ss: seq<Loop>, steps: seq<Step>, n: nat)
    requires n <= |steps| && |ss| == |steps| + 1
  {
    ClockTrue(ss, steps, n) && RequestsTrue(ss, steps, n) && BumpingTrue(ss, steps, n) && BumpsTrue(ss, steps, n)
  }

  ghost predicate Steps(ss: seq<Loop>, steps: seq<Step>, n: nat) {
    |ss| == |steps| + 1 && n < |steps| && Enabled(ss[n], steps[n]) && ss[n + 1] == After(ss[n], steps[n])
  }

  lemma ClockStep(ss: seq<Loop>, steps: seq<Step>, n: nat)
    requires Steps(ss, steps, n) && ClockTrue(ss, steps, n)
    ensures ClockTrue(ss, steps, n + 1)
  {
  }

  lemma RequestsStep(ss: seq<Loop>, steps: seq<Step>, n: nat)
    requires Steps(ss, steps, n) && ss[n].clock == n && RequestsTrue(ss, steps, n)
    ensures RequestsTrue(ss, steps, n + 1)
  {
    if steps[n].WriterRequests? {
      assert RequestsAt(ss, steps, n, ss[n].requested + 1);
    }
    hide RequestsAt;
  }

  lemma BumpingStep(ss: seq<Loop>, steps: seq<Step>, n: nat)
    requires Steps(ss, steps, n) && ss[n].clock == n && BumpingTrue(ss, steps, n)
    ensures BumpingTrue(ss, steps, n + 1)
  {
  }

  lemma BumpsStep(ss: seq<Loop>, steps: seq<Step>, n: nat)
    requires Steps(ss, steps, n) && BumpingTrue(ss, steps, n) && BumpsTrue(ss, steps, n)
    ensures BumpsTrue(ss, steps, n + 1)
  {
    var bumps := ss[n + 1].bumps;
    forall b | b in bumps
      ensures Succeeded(ss, steps, b, n + 1)
    {
      if b in ss[n].bumps {
        assert Succeeded(ss, steps, b, n);
      } else {
        assert BumpsAt(ss, steps, b, n);
      }
    }
  }

  lemma {:induction false} HistoryAlwaysTrue(ss: seq<Loop>, steps: seq<Step>, n: nat)
    requires IsRun(ss, steps) && n <= |steps|
    ensures HistoryTrue(ss, steps, n)
  {
    if n > 0 {
      HistoryAlwaysTrue(ss, steps, n - 1);
      assert ss[n - 1 + 1] == After(ss[n - 1], steps[n - 1]);
      assert Steps(ss, steps, n - 1);
      hide After, Enabled, RequestsTrue, BumpingTrue, BumpsTrue;
      ClockStep(ss, steps, n - 1);
      RequestsStep(ss, steps, n - 1);
      BumpingStep(ss, steps, n - 1);
      BumpsStep(ss, steps, n - 1);
    }
  }

  // Every applied generation was requested at some step, and a bump that began after that step
  // succeeded before it was acknowledged.
  lemma AppliedWasBumped(ss: seq<Loop>, steps: seq<Step>, k: nat, g: nat)
    requires IsRun(ss, steps) && k < |ss| && 1 <= g <= ss[k].applied
    ensures exists r: nat, b: nat, e: nat ::
      r < b < e < k && RequestsAt(ss, steps, r, g) && BumpsAt(ss, steps, b, e)
  {
    hide RequestsAt, BumpsAt, LastFailed;
    InvAlways(ss, steps, k);
    HistoryAlwaysTrue(ss, steps, k);
    var s := ss[k];
    assert BumpedSince(s, g) && BumpsTrue(ss, steps, k) && RequestsTrue(ss, steps, k);
    var b :| b in s.bumps && s.requestedAt[g - 1] < b;
    assert Succeeded(ss, steps, b, k);
    var e: nat :| e < k && BumpsAt(ss, steps, b, e);
    BumpOrder(ss, steps, b, e);
    assert RequestsAt(ss, steps, s.requestedAt[g - 1], g);
  }

  lemma BumpOrder(ss: seq<Loop>, steps: seq<Step>, b: nat, e: nat)
    requires |ss| == |steps| + 1 && BumpsAt(ss, steps, b, e)
    ensures b < e
  {
  }

  // No missed wake-up: the thread never parks on pending reports, a posted request or a
  // generation without a wake-up on its way; only a generation whose last bump failed waits
  // for the next one.
  lemma NoMissedWakeUp(ss: seq<Loop>, steps: seq<Step>, k: nat)
    requires IsRun(ss, steps) && k < |ss| && ss[k].pc.Parked?
    requires ss[k].reportBits || ss[k].mailbox || Max(ss[k].applied, LastFailed(ss, steps, k)) < ss[k].requested
    ensures WakeComing(ss[k])
  {
    hide LastFailed, RequestsTrue, BumpingTrue, BumpsTrue, GenerationInv;
    HistoryAlwaysTrue(ss, steps, k);
    InvAlways(ss, steps, k);
  }

  // ---------- The inner loop ends ----------

  predicate InInnerLoop(pc: Pc) {
    pc.LoadRequested? || HoldsLoad(pc)
  }

  predicate IsStackStep(step: Step) {
    step.LoadsRequested? || step.LoadsApplied? || step.BumpEnds? || step.Acknowledges?
  }

  // Stack-thread steps left in the inner loop at most, if nobody requests a generation.
  function Rank(s: Loop): nat
    requires s.applied <= s.requested
  {
    match s.pc
    case LoadRequested => 4 * (s.requested - s.applied) + 2
    case LoadApplied(r) => 4 * (s.requested - s.applied) + 1
    case Bumping(_, _) => 4 * (s.requested - s.applied)
    case Acknowledging(_, _) => 4 * (s.requested - s.applied) - 1 + if s.requested == s.applied then 1 else 0
    case _ => 0
  }

  lemma RankFalls(s: Loop, step: Step)
    requires Inv(s) && Enabled(s, step) && InInnerLoop(s.pc) && IsStackStep(step)
    ensures After(s, step).applied <= After(s, step).requested
    ensures InInnerLoop(After(s, step).pc) ==> Rank(After(s, step)) < Rank(s)
  {
    hide BumpedSince, BumpCovers;
    BumpTarget(s);
  }

  lemma BumpTarget(s: Loop)
    requires Inv(s)
    ensures s.pc.Bumping? || s.pc.Acknowledging? ==> s.applied < s.pc.requested <= s.requested
  {
  }

  lemma RankBound(s: Loop)
    requires Inv(s)
    ensures s.applied <= s.requested && Rank(s) <= 4 * (s.requested - s.applied) + 2
  {
  }

  // A writer may change bits, swap, post, clear or notify meanwhile: the thread's place and its
  // remaining work stay what they were.
  lemma WriterKeepsRank(s: Loop, step: Step)
    requires Inv(s) && Enabled(s, step) && InInnerLoop(s.pc) && !IsStackStep(step) && !step.WriterRequests?
    ensures After(s, step).pc == s.pc && After(s, step).applied <= After(s, step).requested
    ensures Rank(After(s, step)) == Rank(s)
  {
    hide BumpedSince, BumpCovers, WakeInv, CountInv, AppliedInv;
  }

  // Stack-thread steps among those from i up to j.
  function StackSteps(steps: seq<Step>, i: nat, j: nat): nat
    requires j <= |steps|
    decreases j - i
  {
    if i >= j then 0 else (if IsStackStep(steps[i]) then 1 else 0) + StackSteps(steps, i + 1, j)
  }

  // In every run, while no generation is requested the thread takes at most
  // 4 * (outstanding generations) + 3 steps before it has left the inner loop, whatever other
  // writers do in between and whether bumps succeed or fail.
  lemma InnerLoopEnds(ss: seq<Loop>, steps: seq<Step>, i: nat, j: nat)
    requires IsRun(ss, steps) && i <= j <= |steps|
    requires forall k :: i <= k < j ==> InInnerLoop(ss[k].pc) && !steps[k].WriterRequests?
    ensures ss[i].applied <= ss[i].requested
    ensures StackSteps(steps, i, j) <= 4 * (ss[i].requested - ss[i].applied) + 3
  {
    InvAlways(ss, steps, i);
    RankBound(ss[i]);
    StackStepsBounded(ss, steps, i, j);
  }

  lemma {:induction false} StackStepsBounded(ss: seq<Loop>, steps: seq<Step>, i: nat, j: nat)
    requires IsRun(ss, steps) && i <= j <= |steps|
    requires forall k :: i <= k < j ==> InInnerLoop(ss[k].pc) && !steps[k].WriterRequests?
    ensures ss[i].applied <= ss[i].requested
    ensures StackSteps(steps, i, j) <= Rank(ss[i]) + 1
    decreases j - i
  {
    hide Inv, After, Enabled, Rank;
    InvAlways(ss, steps, i);
    RankBound(ss[i]);
    if i < j {
      StackStepsBounded(ss, steps, i + 1, j);
      assert ss[i + 1] == After(ss[i], steps[i]);
      if IsStackStep(steps[i]) {
        RankFalls(ss[i], steps[i]);
        if !InInnerLoop(ss[i + 1].pc) {
          assert i + 1 == j;
        }
      } else {
        WriterKeepsRank(ss[i], steps[i]);
      }
    }
  }

  // ---------- The thread is woken by someone ----------

  function Count(steps: seq<Step>, n: nat, which: Step): nat
    requires n <= |steps|
  {
    if n == 0 then 0 else Count(steps, n - 1, which) + if steps[n - 1] == which then 1 else 0
  }

  // Notifications are stored in one permit and each wake-up spends it: apart from its timer the
  // thread wakes at most once per notification, and once more only while a permit is stored.
  lemma {:induction false} WakesArePaidFor(ss: seq<Loop>, steps: seq<Step>, n: nat)
    requires IsRun(ss, steps) && n <= |steps|
    ensures Count(steps, n, Wake) + (if ss[n].permit then 1 else 0) <= Count(steps, n, WriterNotifies)
  {
    if n > 0 {
      WakesArePaidFor(ss, steps, n - 1);
      assert ss[n - 1 + 1] == After(ss[n - 1], steps[n - 1]);
    }
  }
}
