// The pairing mailbox and the run loop together: the loop's mailbox flag is the real slot, and the
// thread that drains it is the one that executes what it took.
module MailboxLoopRuns {
  import opened Wrappers
  import M = Mailbox
  import L = StackLoop

  datatype Joint = Joint(box: M.Box, loop: L.Loop)

  datatype Step = OnBox(m: M.Step) | OnLoop(l: L.Step)

  // What a mailbox step is to the loop. A refused post and a caller's own bookkeeping are nothing.
  function LoopPart(box: M.Box, m: M.Step): Option<L.Step> {
    match m
    case Post(_) => if box.slot.None? then Some(L.WriterPosts) else None
    case Take => Some(L.DrainMailbox)
    case Clear(_) => Some(L.WriterClearsMailbox)
    case _ => None
  }

  predicate IsStackThread(l: L.Step) {
    l.Wake? || l.Tick? || l.DrainMailbox? || l.DrainReports? || L.IsStackStep(l)
  }

  // Posting and clearing never happen without the mailbox, the loop passes it by only when it is
  // empty, and goes on only when the request it took is finished.
  predicate Enabled(j: Joint, step: Step) {
    match step
    case OnBox(m) =>
      && M.Enabled(j.box, m)
      && (LoopPart(j.box, m).Some? ==> L.Enabled(j.loop, LoopPart(j.box, m).value))
    case OnLoop(l) =>
      && L.Enabled(j.loop, l) && !l.WriterPosts? && !l.WriterClearsMailbox?
      && (l.DrainMailbox? ==> j.box.slot.None?)
      && (IsStackThread(l) ==> j.box.executing.None?)
  }

  function After(j: Joint, step: Step): Joint
    requires Enabled(j, step)
  {
    match step
    case OnBox(m) =>
      var l := LoopPart(j.box, m);
      Joint(M.After(j.box, m), if l.Some? then L.After(j.loop, l.value) else j.loop)
    case OnLoop(l) => Joint(j.box, L.After(j.loop, l))
  }

  ghost predicate IsRun(js: seq<Joint>, steps: seq<Step>) {
    && |js| == |steps| + 1
    && M.Init(js[0].box) && L.Init(js[0].loop)
    && forall k :: 0 <= k < |steps| ==> Enabled(js[k], steps[k]) && js[k + 1] == After(js[k], steps[k])
  }

  ghost predicate Coupled(j: Joint) {
    && j.loop.mailbox == j.box.slot.Some?
    && (j.box.executing.Some? ==> j.loop.pc.LoadRequested?)
  }

  ghost predicate Inv(j: Joint) {
    M.Inv(j.box) && L.Inv(j.loop) && Coupled(j)
  }

  lemma CoupledStep(j: Joint, step: Step)
    requires Coupled(j) && Enabled(j, step)
    ensures Coupled(After(j, step))
  {
  }

  lemma InvStep(j: Joint, step: Step)
    requires Inv(j) && Enabled(j, step)
    ensures Inv(After(j, step))
  {
    hide M.Inv, L.Inv, Coupled, M.After, L.After, M.Enabled, L.Enabled;
    CoupledStep(j, step);
    match step
    case OnBox(m) =>
      M.InvStep(j.box, m);
      if LoopPart(j.box, m).Some? {
        L.InvStep(j.loop, LoopPart(j.box, m).value);
      }
    case OnLoop(l) => L.InvStep(j.loop, l);
  }

  lemma {:induction false} InvAlways(js: seq<Joint>, steps: seq<Step>, k: nat)
    requires IsRun(js, steps) && k < |js|
    ensures Inv(js[k])
  {
    hide M.Inv, L.Inv, After, Enabled;
    if k == 0 {
      M.InitInv(js[0].box);
      L.InitInv(js[0].loop);
    } else {
      InvAlways(js, steps, k - 1);
      assert js[k - 1 + 1] == After(js[k - 1], steps[k - 1]);
      InvStep(js[k - 1], steps[k - 1]);
    }
  }

  // A request in the mailbox of a parked thread has a wake-up on its way, and no request is left
  // half executed when the thread parks, bumps or drains reports.
  lemma PostedRequestWakes(js: seq<Joint>, steps: seq<Step>, k: nat)
    requires IsRun(js, steps) && k < |js|
    ensures js[k].loop.pc.Parked? && js[k].box.slot.Some? ==> L.WakeComing(js[k].loop)
    ensures js[k].box.executing.Some? ==> js[k].loop.pc.LoadRequested?
  {
    hide IsRun, M.Inv, L.GenerationInv, L.CountInv;
    InvAlways(js, steps, k);
  }

  // Once woken, the thread's next move is to take the request that is there.
  lemma WokenThreadTakes(js: seq<Joint>, steps: seq<Step>, k: nat, c: M.Caller)
    requires IsRun(js, steps) && k < |steps| && js[k].loop.pc.Woken? && js[k].box.slot == Some(c)
    ensures js[k + 1].loop.pc != js[k].loop.pc <==> steps[k] == OnBox(M.Take)
    ensures steps[k] == OnBox(M.Take) ==> js[k + 1].box.executing == Some(c) && js[k + 1].box.slot.None?
  {
    hide M.Inv, L.Inv;
    InvAlways(js, steps, k);
    assert Enabled(js[k], steps[k]) && js[k + 1] == After(js[k], steps[k]);
  }
}
