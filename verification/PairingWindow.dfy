// The pairing window: a deadline and a fabric baseline kept by the stack thread, and the
// history in terms of which "the window is open" is explained.
module PairingWindow {
  import opened Wrappers
  import opened Model

  const PAIRING_TIMEOUT_MIN_SECS: U16 := 180
  const PAIRING_TIMEOUT_MAX_SECS: U16 := 900
  const STARTUP_PAIRING_TIMEOUT_SECS := 900
  const U64_MAX := 0xFFFF_FFFF_FFFF_FFFF

  function ClampPairingTimeout(timeout: U16): U16 {
    Max(PAIRING_TIMEOUT_MIN_SECS, Min(timeout, PAIRING_TIMEOUT_MAX_SECS))
  }

  // A deadline of 0 means closed.
  datatype Window = Window(deadline: nat, fabrics: Byte)

  predicate PairingOpen(w: Window, now: nat) {
    w.deadline != 0 && now < w.deadline
  }

  function SaturatingAdd(now: nat, secs: nat): nat {
    Min(now + secs, U64_MAX)
  }

  function AtStartup(fabrics: Byte, now: nat): Window {
    Window(if fabrics == 0 then SaturatingAdd(now, STARTUP_PAIRING_TIMEOUT_SECS) else 0, fabrics)
  }

  // A sample above the baseline ends the window; an overdue deadline is cleared.
  function AfterSample(w: Window, count: Byte, now: nat): Window {
    Window(if count > w.fabrics || now >= w.deadline then 0 else w.deadline, count)
  }

  datatype WindowOp = Open(timeout: U16) | Close

  datatype OpenOutcome = Opened | Busy | OpenFailed

  // What the clock and the Matter stack answer while one operation runs.
  datatype Env = Env(
    askedAt: nat, openedAt: nat,
    fabricsBefore: Byte, fabricsAfter: Byte,
    openOutcome: OpenOutcome,
    closeOutcome: Option<bool>)

  datatype OpError = AnotherWindowActive | OpenError | CloseError

  datatype StackCall = OpenBasicCommWindow(timeout: U16) | CloseCommWindow

  function AfterOp(w: Window, op: WindowOp, env: Env): Window {
    match op
    case Open(timeout) =>
      if PairingOpen(w, env.askedAt) then w
      else if env.openOutcome.Opened? then Window(SaturatingAdd(env.openedAt, timeout), env.fabricsAfter)
      else w.(fabrics := env.fabricsBefore)
    case Close =>
      if !PairingOpen(w, env.askedAt) || env.closeOutcome.Some? then w.(deadline := 0) else w
  }

  function ReplyTo(w: Window, op: WindowOp, env: Env): Result<(), OpError> {
    if op.Open? && !PairingOpen(w, env.askedAt) && env.openOutcome.Busy? then Failure(AnotherWindowActive)
    else if op.Open? && !PairingOpen(w, env.askedAt) && env.openOutcome.OpenFailed? then Failure(OpenError)
    else if op.Close? && PairingOpen(w, env.askedAt) && env.closeOutcome.None? then Failure(CloseError)
    else Success(())
  }

  function CallsOf(w: Window, op: WindowOp, env: Env): seq<StackCall> {
    match op
    case Open(timeout) => if PairingOpen(w, env.askedAt) then [] else [OpenBasicCommWindow(timeout)]
    case Close => if PairingOpen(w, env.askedAt) then [CloseCommWindow] else []
  }

  // ---------- Histories ----------

  datatype Event =
    | AskedOpen(requested: U16, env: Env)
    | AskedClose(env: Env)
    | Sampled(count: Byte, at: nat)

  datatype History = History(fabrics: Byte, startedAt: nat, events: seq<Event>)

  // Requests are clamped when they are posted.
  function OpOf(e: Event): WindowOp
    requires !e.Sampled?
  {
    if e.AskedOpen? then Open(ClampPairingTimeout(e.requested)) else Close
  }

  function StateAfter(h: History, n: nat): Window
    requires n <= |h.events|
  {
    if n == 0 then AtStartup(h.fabrics, h.startedAt)
    else
      var w := StateAfter(h, n - 1);
      match h.events[n - 1]
      case Sampled(count, at) => AfterSample(w, count, at)
      case _ => AfterOp(w, OpOf(h.events[n - 1]), h.events[n - 1].env)
  }

  function BeginTime(e: Event): nat {
    if e.Sampled? then e.at else e.env.askedAt
  }

  function EndTime(e: Event): nat {
    match e
    case Sampled(_, at) => at
    case AskedOpen(_, env) => env.openedAt
    case AskedClose(env) => env.askedAt
  }

  function TimeAfter(h: History, n: nat): nat
    requires n <= |h.events|
  {
    if n == 0 then h.startedAt else EndTime(h.events[n - 1])
  }

  // The clock never runs backwards.
  ghost predicate ClockOk(h: History) {
    forall i :: 0 <= i < |h.events| ==> TimeAfter(h, i) <= BeginTime(h.events[i]) <= EndTime(h.events[i])
  }

  // ---------- The window, told from the events alone ----------

  // Event k opened the window (-1 is start-up): there were no fabrics, or a request found the
  // window closed and the stack accepted.
  ghost predicate Opening(h: History, k: int)
    requires -1 <= k < |h.events|
    decreases k + 1, 0
  {
    if k == -1 then h.fabrics == 0
    else
      && h.events[k].AskedOpen?
      && !IsOpen(h, k, h.events[k].env.askedAt)
      && h.events[k].env.openOutcome.Opened?
  }

  // The fabrics last recorded: by the latest sample, or by the latest request that found the
  // window closed, after the opening if the stack accepted it and before it otherwise.
  ghost function Recorded(h: History, n: nat): Byte
    requires n <= |h.events|
    decreases n, 3
  {
    if n == 0 then h.fabrics
    else match h.events[n - 1]
      case Sampled(count, _) => count
      case AskedOpen(_, env) =>
        if IsOpen(h, n - 1, env.askedAt) then Recorded(h, n - 1)
        else if env.openOutcome.Opened? then env.fabricsAfter
        else env.fabricsBefore
      case AskedClose(_) => Recorded(h, n - 1)
  }

  // Event k ended a window: more fabrics than last recorded, or a close of an open window that
  // the stack accepted.
  ghost predicate Ending(h: History, k: nat)
    requires k < |h.events|
    decreases k + 1, 0
  {
    match h.events[k]
    case Sampled(count, _) => count > Recorded(h, k)
    case AskedClose(env) => IsOpen(h, k, env.askedAt) && env.closeOutcome.Some?
    case AskedOpen(_, _) => false
  }

  // 900 seconds at start-up; the requested time, but never under 180 or over 900 seconds.
  ghost function Timeout(h: History, k: int): nat
    requires -1 <= k < |h.events| && (k >= 0 ==> h.events[k].AskedOpen?)
  {
    if k == -1 then 900
    else if h.events[k].requested < 180 then 180
    else if h.events[k].requested > 900 then 900
    else h.events[k].requested
  }

  // In 64-bit seconds.
  ghost function Expiry(h: History, k: int): nat
    requires -1 <= k < |h.events| && Opening(h, k)
    decreases k + 1, 1
  {
    Min(TimeAfter(h, k + 1) + Timeout(h, k), 0xFFFF_FFFF_FFFF_FFFF)
  }

  // k is the latest opening among the first n events and nothing has ended it.
  ghost predicate OpenSince(h: History, k: int, n: nat)
    requires n <= |h.events|
    decreases n, 1
  {
    && -1 <= k < n
    && Opening(h, k)
    && forall j :: k < j < n ==> !Opening(h, j) && !Ending(h, j)
  }

  // Some opening is the latest, nothing has ended it, and its time has not run out at t.
  ghost predicate IsOpen(h: History, n: nat, t: nat)
    requires n <= |h.events|
    decreases n, 2
  {
    exists k :: OpenSince(h, k, n) && t < Expiry(h, k)
  }

  lemma OpenSinceStep(h: History, k: int, n: nat)
    requires n < |h.events|
    ensures OpenSince(h, k, n + 1) <==>
      (k == n && Opening(h, n)) || (OpenSince(h, k, n) && !Opening(h, n) && !Ending(h, n))
  {
    hide Opening, Ending;
    if OpenSince(h, k, n + 1) {
      if k < n {
        assert !Opening(h, n) && !Ending(h, n);
        assert OpenSince(h, k, n);
      }
    }
    if OpenSince(h, k, n) && !Opening(h, n) && !Ending(h, n) {
      forall j | k < j < n + 1
        ensures !Opening(h, j) && !Ending(h, j)
      {
        if j == n {
        }
      }
      assert OpenSince(h, k, n + 1);
    }
  }

  // The deadline is the expiry of the latest unended opening, or 0 once that has passed; the
  // fabrics are those last recorded.
  ghost predicate WindowExplained(h: History, n: nat)
    requires n <= |h.events|
  {
    var w := StateAfter(h, n);
    && w.fabrics == Recorded(h, n)
    && (w.deadline != 0 ==> exists k :: OpenSince(h, k, n) && w.deadline == Expiry(h, k))
    && (forall k :: OpenSince(h, k, n) ==>
          w.deadline == Expiry(h, k) || (w.deadline == 0 && Expiry(h, k) <= TimeAfter(h, n)))
  }

  lemma OpenIffExplained(h: History, n: nat, t: nat)
    requires n <= |h.events| && WindowExplained(h, n) && TimeAfter(h, n) <= t
    ensures PairingOpen(StateAfter(h, n), t) <==> IsOpen(h, n, t)
  {
    hide Recorded, StateAfter, OpenSince, Expiry;
  }

  lemma WindowStep(h: History, n: nat)
    requires ClockOk(h) && n < |h.events| && WindowExplained(h, n)
    ensures WindowExplained(h, n + 1)
  {
    hide IsOpen;
    var w, w' := StateAfter(h, n), StateAfter(h, n + 1);
    var e := h.events[n];
    assert TimeAfter(h, n) <= BeginTime(e) <= TimeAfter(h, n + 1);
    OpenIffExplained(h, n, BeginTime(e));
    assert w'.fabrics == Recorded(h, n + 1);
    if Opening(h, n) {
      OpenSinceStep(h, n, n);
      assert w'.deadline == Expiry(h, n);
    } else if w'.deadline != 0 {
      assert w'.deadline == w.deadline && !Ending(h, n);
      var k :| OpenSince(h, k, n) && w.deadline == Expiry(h, k);
      OpenSinceStep(h, k, n);
    }
    forall k | OpenSince(h, k, n + 1)
      ensures w'.deadline == Expiry(h, k) || (w'.deadline == 0 && Expiry(h, k) <= TimeAfter(h, n + 1))
    {
      OpenSinceStep(h, k, n);
    }
  }

  lemma WindowAtStart(h: History)
    ensures WindowExplained(h, 0)
  {
    assert h.fabrics == 0 ==> OpenSince(h, -1, 0);
    assert forall k :: OpenSince(h, k, 0) ==> k == -1;
  }

  lemma {:induction false} WindowAlways(h: History, n: nat)
    requires ClockOk(h) && n <= |h.events|
    ensures WindowExplained(h, n)
  {
    hide Opening, Ending, WindowExplained, StateAfter, OpenSince;
    if n == 0 {
      WindowAtStart(h);
    } else {
      WindowAlways(h, n - 1);
      WindowStep(h, n - 1);
    }
  }

  // `pairing_open` after any number of events and at any later time, exactly: some opening is
  // the latest, nothing has ended it, and its time has not run out. The fabrics compared with
  // the next sample are those last recorded.
  lemma PairingOpenIff(h: History, n: nat, t: nat)
    requires ClockOk(h) && n <= |h.events| && TimeAfter(h, n) <= t
    ensures PairingOpen(StateAfter(h, n), t) <==> IsOpen(h, n, t)
    ensures StateAfter(h, n).fabrics == Recorded(h, n)
  {
    hide IsOpen, StateAfter;
    WindowAlways(h, n);
    OpenIffExplained(h, n, t);
  }

  // A window nothing ended stays open for at least 180 seconds, and none is open 900 seconds
  // after its own opening.
  lemma OpenBetween180And900(h: History, n: nat, t: nat)
    requires ClockOk(h) && n <= |h.events| && TimeAfter(h, n) <= t < 0xFFFF_FFFF_FFFF_FFFF
    ensures (exists k :: OpenSince(h, k, n) && t < TimeAfter(h, k + 1) + 180) ==> PairingOpen(StateAfter(h, n), t)
    ensures PairingOpen(StateAfter(h, n), t) ==> exists k :: OpenSince(h, k, n) && t < TimeAfter(h, k + 1) + 900
  {
    hide StateAfter;
    PairingOpenIff(h, n, t);
  }

  // ---------- Replies and stack calls ----------

  // An Open that finds the window open changes nothing and reaches no stack call.
  lemma OpenWhileOpenIsNoOp(h: History, n: nat)
    requires ClockOk(h) && n < |h.events| && h.events[n].AskedOpen?
    requires IsOpen(h, n, h.events[n].env.askedAt)
    ensures StateAfter(h, n + 1) == StateAfter(h, n)
    ensures CallsOf(StateAfter(h, n), OpOf(h.events[n]), h.events[n].env) == []
    ensures ReplyTo(StateAfter(h, n), OpOf(h.events[n]), h.events[n].env) == Success(())
  {
    hide IsOpen;
    assert TimeAfter(h, n) <= BeginTime(h.events[n]);
    PairingOpenIff(h, n, h.events[n].env.askedAt);
  }

  // An Open that finds it closed asks the stack once, for the clamped time, and answers what the
  // stack answers; refused, it leaves the window closed.
  lemma OpenWhileClosedAsksOnce(h: History, n: nat)
    requires ClockOk(h) && n < |h.events| && h.events[n].AskedOpen?
    requires !IsOpen(h, n, h.events[n].env.askedAt)
    ensures CallsOf(StateAfter(h, n), OpOf(h.events[n]), h.events[n].env) == [OpenBasicCommWindow(Timeout(h, n))]
    ensures var r := ReplyTo(StateAfter(h, n), OpOf(h.events[n]), h.events[n].env);
      && (r == Success(()) <==> Opening(h, n))
      && (r == Failure(AnotherWindowActive) <==> h.events[n].env.openOutcome.Busy?)
      && (r == Failure(OpenError) <==> h.events[n].env.openOutcome.OpenFailed?)
      && (r.Failure? ==> !PairingOpen(StateAfter(h, n + 1), TimeAfter(h, n + 1)))
  {
    hide IsOpen;
    assert TimeAfter(h, n) <= BeginTime(h.events[n]) <= EndTime(h.events[n]);
    PairingOpenIff(h, n, h.events[n].env.askedAt);
  }

  // The stack close is called, once, exactly for a Close that finds one of this bridge's own
  // openings still running: never for a window it does not track. Only such a close can fail,
  // and does exactly when the stack refuses, leaving the window as it was.
  lemma StackCloseOnlyWhenTracked(h: History, n: nat)
    requires ClockOk(h) && n < |h.events| && h.events[n].AskedClose?
    ensures var w, env := StateAfter(h, n), h.events[n].env;
      && CallsOf(w, Close, env) == (if IsOpen(h, n, env.askedAt) then [CloseCommWindow] else [])
      && ReplyTo(w, Close, env) ==
        (if IsOpen(h, n, env.askedAt) && env.closeOutcome.None? then Failure(CloseError) else Success(()))
      && (ReplyTo(w, Close, env).Failure? ==> StateAfter(h, n + 1) == w)
      && (ReplyTo(w, Close, env).Success? ==> StateAfter(h, n + 1).deadline == 0)
  {
    hide IsOpen;
    assert TimeAfter(h, n) <= BeginTime(h.events[n]);
    PairingOpenIff(h, n, h.events[n].env.askedAt);
  }
}
