// The one-slot pairing request mailbox, with any number of callers, timeouts and a single
// executing stack thread.
module Mailbox {
  import opened Wrappers

  type Caller = nat

  // A caller blocked on its reply channel; past the timeout (or a dropped channel) but not yet
  // back under the mailbox lock; or returned.
  datatype CallerPc = Waiting | TimedOut | Returned(ok: bool)

  // `replies` are messages in channels. `executed` is history: who ran, in order, with what result.
  datatype Box = Box(
    slot: Option<Caller>,
    executing: Option<Caller>,
    callers: map<Caller, CallerPc>,
    replies: map<Caller, bool>,
    executed: seq<(Caller, bool)>)

  datatype Step =
    | Post(c: Caller)
    | Take
    | Finish(ok: bool)
    | Receive(c: Caller)
    | GiveUp(c: Caller)
    | Clear(c: Caller)

  predicate Enabled(s: Box, step: Step) {
    match step
    case Post(c) => c !in s.callers
    case Take => s.executing.None? && s.slot.Some?
    case Finish(_) => s.executing.Some?
    case Receive(c) => c in s.callers && s.callers[c].Waiting? && c in s.replies
    // The timeout, or a disconnect because the request was dropped unanswered.
    case GiveUp(c) => c in s.callers && s.callers[c].Waiting? && c !in s.replies
    case Clear(c) => c in s.callers && s.callers[c].TimedOut?
  }

  function After(s: Box, step: Step): Box
    requires Enabled(s, step)
  {
    match step
    case Post(c) =>
      if s.slot.Some? then s.(callers := s.callers[c := Returned(false)])
      else s.(slot := Some(c), callers := s.callers[c := Waiting])
    case Take => s.(slot := None, executing := s.slot)
    case Finish(ok) =>
      var c := s.executing.value;
      s.(executing := None, executed := s.executed + [(c, ok)], replies := s.replies[c := ok])
    case Receive(c) => s.(callers := s.callers[c := Returned(s.replies[c])])
    case GiveUp(c) => s.(callers := s.callers[c := TimedOut])
    // The slot is emptied whoever's request it holds.
    case Clear(c) => s.(slot := None, callers := s.callers[c := Returned(false)])
  }

  ghost predicate Init(s: Box) {
    s == Box(None, None, map[], map[], [])
  }

  ghost predicate IsRun(ss: seq<Box>, steps: seq<Step>) {
    && |ss| == |steps| + 1
    && Init(ss[0])
    && forall k :: 0 <= k < |steps| ==> Enabled(ss[k], steps[k]) && ss[k + 1] == After(ss[k], steps[k])
  }

  ghost predicate Executed(s: Box, c: Caller) {
    exists i :: 0 <= i < |s.executed| && s.executed[i].0 == c
  }

  ghost predicate Once(s: Box) {
    && (forall i :: 0 <= i < |s.executed| ==> s.executed[i].0 in s.callers)
    && (forall i, j :: 0 <= i < j < |s.executed| ==> s.executed[i].0 != s.executed[j].0)
    && (s.slot.Some? ==>
          && s.slot.value in s.callers && s.executing != s.slot && !Executed(s, s.slot.value))
    && (s.executing.Some? ==> s.executing.value in s.callers && !Executed(s, s.executing.value))
  }

  ghost predicate RepliesTell(s: Box) {
    && (forall c :: c in s.replies ==> (c, s.replies[c]) in s.executed)
    && (forall p :: p in s.executed ==> p.0 in s.replies && s.replies[p.0] == p.1)
  }

  ghost predicate ReturnsTell(s: Box) {
    && (forall c :: c in s.callers && s.callers[c] == Returned(true) ==> (c, true) in s.executed)
    && (s.slot.Some? ==> s.slot.value in s.callers && !s.callers[s.slot.value].Returned?)
  }

  ghost predicate Inv(s: Box) {
    Once(s) && RepliesTell(s) && ReturnsTell(s)
  }

  lemma ExecutedGrows(s: Box, step: Step)
    requires Enabled(s, step)
    ensures After(s, step).executed == s.executed || (step.Finish? &&
      After(s, step).executed == s.executed + [(s.executing.value, step.ok)])
    ensures forall p :: p in After(s, step).executed <==>
      p in s.executed || (step.Finish? && p == (s.executing.value, step.ok))
  {
  }

  lemma OnceStep(s: Box, step: Step)
    requires Once(s) && Enabled(s, step)
    ensures Once(After(s, step))
  {
    var s' := After(s, step);
    ExecutedGrows(s, step);
    if step.Finish? {
      assert forall i :: 0 <= i < |s.executed| ==> s'.executed[i] == s.executed[i];
    }
  }

  lemma RepliesStep(s: Box, step: Step)
    requires Once(s) && RepliesTell(s) && Enabled(s, step)
    ensures RepliesTell(After(s, step))
  {
    ExecutedGrows(s, step);
    if step.Finish? {
      assert forall p :: p in s.executed ==> p.0 != s.executing.value;
    }
  }

  lemma ReturnsStep(s: Box, step: Step)
    requires Inv(s) && Enabled(s, step)
    ensures ReturnsTell(After(s, step))
  {
    ExecutedGrows(s, step);
    if step.Receive? {
      assert (step.c, s.replies[step.c]) in s.executed;
    }
  }

  lemma InvStep(s: Box, step: Step)
    requires Inv(s) && Enabled(s, step)
    ensures Inv(After(s, step))
  {
    hide After, Enabled, Once, RepliesTell, ReturnsTell;
    OnceStep(s, step);
    RepliesStep(s, step);
    ReturnsStep(s, step);
  }

  lemma InitInv(s: Box)
    requires Init(s)
    ensures Inv(s)
  {
  }

  lemma {:induction false} InvAlways(ss: seq<Box>, steps: seq<Step>, k: nat)
    requires IsRun(ss, steps) && k < |ss|
    ensures Inv(ss[k])
  {
    hide Inv, After, Enabled;
    if k == 0 {
      InitInv(ss[0]);
    } else {
      InvAlways(ss, steps, k - 1);
      assert ss[k - 1 + 1] == After(ss[k - 1], steps[k - 1]);
      InvStep(ss[k - 1], steps[k - 1]);
    }
  }

  // In every reachable state: each request has been executed at most once, its reply being the
  // result; a caller that returned Ok had its own request executed successfully; and a caller
  // that returned has no request left in the mailbox.
  lemma MailboxProtocol(ss: seq<Box>, steps: seq<Step>, k: nat)
    requires IsRun(ss, steps) && k < |ss|
    ensures forall i, j :: 0 <= i < j < |ss[k].executed| ==> ss[k].executed[i].0 != ss[k].executed[j].0
    ensures forall p :: p in ss[k].executed <==> p.0 in ss[k].replies && ss[k].replies[p.0] == p.1
    ensures forall c :: c in ss[k].callers && ss[k].callers[c] == Returned(true) ==> (c, true) in ss[k].executed
    ensures forall c :: c in ss[k].callers && ss[k].callers[c].Returned? ==> ss[k].slot != Some(c)
  {
    InvAlways(ss, steps, k);
  }

  // ---------- What a caller is answered ----------

  // The stack thread finished c's request with this result.
  ghost predicate Finished(ss: seq<Box>, steps: seq<Step>, j: nat, c: Caller, ok: bool)
    requires |ss| == |steps| + 1
  {
    j < |steps| && steps[j] == Finish(ok) && ss[j].executing == Some(c)
  }

  // `executed` is what the Finish steps did.
  lemma {:induction false} ExecutedIff(ss: seq<Box>, steps: seq<Step>, k: nat, c: Caller, ok: bool)
    requires IsRun(ss, steps) && k < |ss|
    ensures (c, ok) in ss[k].executed <==> exists j: nat :: j < k && Finished(ss, steps, j, c, ok)
  {
    if k > 0 {
      ExecutedIff(ss, steps, k - 1, c, ok);
      assert ss[k - 1 + 1] == After(ss[k - 1], steps[k - 1]);
      assert (c, ok) in ss[k].executed <==> (c, ok) in ss[k - 1].executed || Finished(ss, steps, k - 1, c, ok);
      if j: nat :| j < k && Finished(ss, steps, j, c, ok) {
        assert j < k - 1 || j == k - 1;
      }
    }
  }

  // Step j answers c: refused at an occupied mailbox, gave up and cleared, or told the result of
  // its own request.
  ghost predicate Answered(ss: seq<Box>, steps: seq<Step>, j: nat, c: Caller, ok: bool)
    requires |ss| == |steps| + 1 && j < |steps|
  {
    match steps[j]
    case Post(d) => d == c && !ok && ss[j].slot.Some?
    case Clear(d) => d == c && !ok
    case Receive(d) => d == c && exists i: nat :: i < j && Finished(ss, steps, i, c, ok)
    case _ => false
  }

  // A caller has returned with an answer exactly when some step gave it that answer; the answer
  // received is the result its own request finished with, success and failure alike.
  lemma {:induction false} AnswerIff(ss: seq<Box>, steps: seq<Step>, k: nat, c: Caller, ok: bool)
    requires IsRun(ss, steps) && k < |ss|
    ensures c in ss[k].callers && ss[k].callers[c] == Returned(ok) <==>
      exists j: nat :: j < k && Answered(ss, steps, j, c, ok)
  {
    if k > 0 {
      AnswerIff(ss, steps, k - 1, c, ok);
      AnswerStep(ss, steps, k - 1, c, ok);
      if j: nat :| j < k && Answered(ss, steps, j, c, ok) {
        assert j < k - 1 || j == k - 1;
      }
    }
  }

  lemma AnswerStep(ss: seq<Box>, steps: seq<Step>, k: nat, c: Caller, ok: bool)
    requires IsRun(ss, steps) && k < |steps|
    ensures c in ss[k + 1].callers && ss[k + 1].callers[c] == Returned(ok) <==>
      (c in ss[k].callers && ss[k].callers[c] == Returned(ok)) || Answered(ss, steps, k, c, ok)
  {
    InvAlways(ss, steps, k);
    ExecutedIff(ss, steps, k, c, ok);
    ExecutedIff(ss, steps, k, c, !ok);
    assert Enabled(ss[k], steps[k]) && ss[k + 1] == After(ss[k], steps[k]);
    var r := ss[k].replies;
    assert c in r ==> ((c, ok) in ss[k].executed <==> r[c] == ok);
  }

  // Only the caller in an accepted Post gets into the mailbox, and only the stack thread takes a
  // request out to run it.
  lemma PostAndTake(ss: seq<Box>, steps: seq<Step>, k: nat, c: Caller)
    requires IsRun(ss, steps) && k < |steps|
    ensures ss[k].slot != Some(c) && ss[k + 1].slot == Some(c) <==> steps[k] == Post(c) && ss[k].slot.None?
    ensures ss[k].executing != Some(c) && ss[k + 1].executing == Some(c) <==> steps[k] == Take && ss[k].slot == Some(c)
    ensures steps[k] == Post(c) && ss[k].slot.None? ==> c in ss[k + 1].callers && ss[k + 1].callers[c] == Waiting
  {
    InvAlways(ss, steps, k);
    assert Enabled(ss[k], steps[k]) && ss[k + 1] == After(ss[k], steps[k]);
  }

  // ---------- Requests dropped unexecuted ----------

  // d's request was in the mailbox and is gone without being taken.
  ghost predicate DropsRequest(s: Box, step: Step, d: Caller)
    requires Enabled(s, step)
  {
    s.slot == Some(d) && After(s, step).slot != Some(d) && After(s, step).executing != Some(d)
  }

  // A request leaves unexecuted exactly when some caller clears after its timeout; if that
  // caller is another one, its own request had already been taken by the stack thread or
  // dropped in the same way.
  lemma DroppedOnlyByClear(ss: seq<Box>, steps: seq<Step>, k: nat, d: Caller)
    requires IsRun(ss, steps) && k < |steps|
    ensures Enabled(ss[k], steps[k])
    ensures DropsRequest(ss[k], steps[k], d) <==> steps[k].Clear? && ss[k].slot == Some(d)
    ensures DropsRequest(ss[k], steps[k], d) && steps[k].c != d ==>
      exists j :: 0 <= j < k && ss[j].slot == Some(steps[k].c) && (steps[j] == Take || steps[j].Clear?)
  {
    InvAlways(ss, steps, k);
    if DropsRequest(ss[k], steps[k], d) && steps[k].c != d {
      LeftTheSlot(ss, steps, k, steps[k].c);
    }
  }

  // A caller past posting whose request is no longer in the slot had it leave at some step.
  lemma {:induction false} LeftTheSlot(ss: seq<Box>, steps: seq<Step>, k: nat, c: Caller)
    requires IsRun(ss, steps) && k <= |steps|
    requires c in ss[k].callers && !ss[k].callers[c].Returned? && ss[k].slot != Some(c)
    ensures exists j :: 0 <= j < k && ss[j].slot == Some(c) && (steps[j] == Take || steps[j].Clear?)
  {
    if k > 0 {
      assert ss[k - 1 + 1] == After(ss[k - 1], steps[k - 1]);
      if ss[k - 1].slot == Some(c) {
        assert steps[k - 1] == Take || steps[k - 1].Clear?;
      } else {
        LeftTheSlot(ss, steps, k - 1, c);
      }
    }
  }

  // A concrete run in which caller 0, slow to be answered, evicts caller 1's fresh request: it
  // is neither held, running nor answered, and never ran, though the stack thread is alive.
  lemma TimeoutEvictsAnotherCaller()
    ensures exists ss: seq<Box>, steps: seq<Step> ::
      && IsRun(ss, steps)
      && steps == [Post(0), Take, Post(1), GiveUp(0), Clear(0)]
      && ss[5] == Box(None, Some(0), map[0 := Returned(false), 1 := Waiting], map[], [])
  {
    var steps := [Post(0), Take, Post(1), GiveUp(0), Clear(0)];
    var s0 := Box(None, None, map[], map[], []);
    var s1 := Box(Some(0), None, map[0 := Waiting], map[], []);
    var s2 := Box(None, Some(0), map[0 := Waiting], map[], []);
    var s3 := Box(Some(1), Some(0), map[0 := Waiting, 1 := Waiting], map[], []);
    var s4 := Box(Some(1), Some(0), map[0 := TimedOut, 1 := Waiting], map[], []);
    var s5 := Box(None, Some(0), map[0 := Returned(false), 1 := Waiting], map[], []);
    var ss := [s0, s1, s2, s3, s4, s5];
    assert s3 == After(s2, Post(1)) && s4 == After(s3, GiveUp(0)) && s5 == After(s4, Clear(0));
    assert IsRun(ss, steps);
  }
}
