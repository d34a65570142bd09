/**
 What the event-channel calls are for, over all runs of the machine: masking
 and unmasking last, an event that is sent is handled, the calls and the upcall
 deliver before they return, the upcall mask is given back, and the guest's
 activations come to an end.
 */
module EventDelivery {
  import opened EventChannels

  // ----- what the calls are for

  /** A step changes nothing below the activation on top. */
  lemma StackBelow(s: State, step: Step, m: State)
    requires Moves(s, step, m)
    ensures |m.stack| + 1 >= |s.stack|
    ensures forall k :: 0 <= k < |s.stack| - 1 ==> m.stack[k] == s.stack[k]
    ensures !step.Run? && !step.HandlerReturns? ==> |m.stack| >= |s.stack|
    ensures !step.Run? && !step.HandlerReturns? && s.stack != [] ==> m.stack[|s.stack| - 1] == s.Top()
  {
    if step.Run? {
      RunBelow(s, step.bit);
    }
  }

  lemma RunBelow(s: State, bit: nat)
    requires s.stack != [] && !s.InCode()
    ensures |RunTop(s, bit).stack| + 1 >= |s.stack|
    ensures forall k :: 0 <= k < |s.stack| - 1 ==> RunTop(s, bit).stack[k] == s.stack[k]
  {
  }

  /** The step is unmask_evtchn clearing the mask bit of p. */
  ghost predicate Clears(s: State, step: Step, p: nat) {
    step.Run? && s.stack != [] && s.Top() == Unmask(p, ClearMask)
  }

  /** Only mask_evtchn sets a mask bit, and only unmask_evtchn clears one. */
  lemma MaskStep(s: State, step: Step, m: State, p: nat)
    requires Moves(s, step, m)
    ensures p in m.mask <==> step == CallMask(p) || (p in s.mask && !Clears(s, step, p))
  {
  }

  /** Until its first step, the activation that is to unmask p waits at place d of the stack. */
  ghost predicate Unmasking(s: State, d: nat, p: nat) {
    p !in s.mask || (d < |s.stack| && s.stack[d] == Unmask(p, ClearMask))
  }

  lemma UnmaskingStep(s: State, step: Step, m: State, d: nat, p: nat)
    requires Moves(s, step, m) && Unmasking(s, d, p) && step != CallMask(p)
    ensures Unmasking(m, d, p)
  {
    MaskStep(s, step, m, p);
    StackBelow(s, step, m);
    if p in s.mask && d == |s.stack| - 1 && step.HandlerReturns? {
      assert false;
    }
  }

  lemma {:induction false} UnmaskingOnRuns(trace: seq<State>, steps: seq<Step>, i: nat, n: nat, p: nat)
    requires IsRun(trace, steps) && i < n < |trace| && steps[i] == CallUnmask(p)
    requires forall k :: i <= k < n ==> steps[k] != CallMask(p)
    ensures Unmasking(trace[n], |trace[i].stack|, p)
  {
    assert Moves(trace[n - 1], steps[n - 1], trace[n]);
    if n > i + 1 {
      UnmaskingOnRuns(trace, steps, i, n - 1, p);
      UnmaskingStep(trace[n - 1], steps[n - 1], trace[n], |trace[i].stack|, p);
    }
  }

  /** Once a call of unmask_evtchn has returned, at m, the port is not masked until it is masked again. */
  lemma {:induction false} UnmaskUnmasks(trace: seq<State>, steps: seq<Step>, i: nat, m: nat, n: nat, p: nat)
    requires IsRun(trace, steps) && i < m <= n < |trace| && steps[i] == CallUnmask(p)
    requires forall k :: i <= k < n ==> steps[k] != CallMask(p)
    requires |trace[m].stack| <= |trace[i].stack|
    ensures p !in trace[n].mask
    decreases n
  {
    if n == m {
      UnmaskingOnRuns(trace, steps, i, n, p);
    } else {
      UnmaskUnmasks(trace, steps, i, m, n - 1, p);
      assert Moves(trace[n - 1], steps[n - 1], trace[n]);
      MaskStep(trace[n - 1], steps[n - 1], trace[n], p);
    }
  }

  /** Once masked, a port stays so until unmask_evtchn clears its bit. */
  lemma {:induction false} MaskMasks(trace: seq<State>, steps: seq<Step>, i: nat, n: nat, p: nat)
    requires IsRun(trace, steps) && i < n < |trace| && steps[i] == CallMask(p)
    requires forall k :: i < k < n ==> !Clears(trace[k], steps[k], p)
    ensures p in trace[n].mask
  {
    assert Moves(trace[n - 1], steps[n - 1], trace[n]);
    MaskStep(trace[n - 1], steps[n - 1], trace[n], p);
    if n > i + 1 {
      MaskMasks(trace, steps, i, n - 1, p);
    }
  }

  /** A pending bit is cleared by clear_evtchn, or by a callback that enters the handler. */
  lemma PendingStep(s: State, step: Step, m: State, p: nat)
    requires Moves(s, step, m)
    ensures s.handled <= m.handled
    ensures p in s.pending && p !in m.pending && step != CallClear(p) ==> m.handled == s.handled + [p]
    ensures step.Begin? ==> step.p in m.pending
  {
  }

  /** The handler of p is entered between two states. */
  ghost predicate HandledBetween(s: State, m: State, p: nat) {
    s.handled <= m.handled && p in m.handled[|s.handled|..]
  }

  lemma HandledLater(s: State, m: State, o: State, p: nat)
    requires s.handled <= m.handled <= o.handled
    ensures HandledBetween(s, m, p) ==> HandledBetween(s, o, p)
    ensures o.handled == m.handled + [p] ==> HandledBetween(s, o, p)
  {
    var a, b, c := s.handled, m.handled, o.handled;
    assert forall k :: 0 <= k < |b| - |a| ==> b[|a|..][k] == c[|a|..][k];
    if c == b + [p] {
      assert c[|a|..][|b| - |a|] == p;
    }
  }

  lemma {:induction false} PendingUntilHandled(trace: seq<State>, steps: seq<Step>, i: nat, n: nat, p: nat)
    requires IsRun(trace, steps) && i <= n < |trace| && p in trace[i].pending
    requires forall k :: i <= k < n ==> steps[k] != CallClear(p)
    ensures trace[i].handled <= trace[n].handled
    ensures p in trace[n].pending || HandledBetween(trace[i], trace[n], p)
  {
    if n > i {
      PendingUntilHandled(trace, steps, i, n - 1, p);
      assert Moves(trace[n - 1], steps[n - 1], trace[n]);
      PendingStep(trace[n - 1], steps[n - 1], trace[n], p);
      HandledLater(trace[i], trace[n - 1], trace[n], p);
    }
  }

  /** An event that is sent is handled: when the guest is in no event code, no
      send is in progress and no upcall is due, and the port is not masked, its
      handler has been entered since. */
  lemma SentIsHandled(trace: seq<State>, steps: seq<Step>, i: nat, n: nat, id: nat, p: nat)
    requires IsRun(trace, steps) && i < n < |trace| && steps[i] == Begin(id, p)
    requires forall k :: i < k < n ==> steps[k] != CallClear(p)
    requires trace[n].stack == [] && trace[n].sends == map[] && !trace[n].upcall && p !in trace[n].mask
    ensures HandledBetween(trace[i + 1], trace[n], p)
  {
    assert Moves(trace[i], steps[i], trace[i + 1]);
    PendingStep(trace[i], steps[i], trace[i + 1], p);
    PendingUntilHandled(trace, steps, i + 1, n, p);
    NoLostEvent(trace, steps, n);
  }

  /** In particular, a call of unmask_evtchn gets an event handled that came while the port was masked. */
  lemma UnmaskedIsHandled(trace: seq<State>, steps: seq<Step>, i: nat, m: nat, n: nat, p: nat)
    requires IsRun(trace, steps) && i < m <= n < |trace| && steps[i] == CallUnmask(p) && p in trace[i].pending
    requires forall k :: i <= k < n ==> steps[k] != CallMask(p) && steps[k] != CallClear(p)
    requires |trace[m].stack| <= |trace[i].stack|
    requires trace[n].stack == [] && trace[n].sends == map[] && !trace[n].upcall
    ensures HandledBetween(trace[i], trace[n], p)
  {
    UnmaskUnmasks(trace, steps, i, m, n, p);
    PendingUntilHandled(trace, steps, i, n, p);
    NoLostEvent(trace, steps, n);
  }

  /** Once cleared, a port is not pending until another event is sent to it. */
  lemma {:induction false} ClearClears(trace: seq<State>, steps: seq<Step>, i: nat, n: nat, p: nat)
    requires IsRun(trace, steps) && i < n < |trace| && steps[i] == CallClear(p)
    requires forall k :: i < k < n ==> !(steps[k].Begin? && steps[k].p == p)
    ensures p !in trace[n].pending
  {
    assert Moves(trace[n - 1], steps[n - 1], trace[n]);
    PendingOnlySent(trace[n - 1], steps[n - 1], trace[n], p);
    if n > i + 1 {
      ClearClears(trace, steps, i, n - 1, p);
    }
  }

  lemma PendingOnlySent(s: State, step: Step, m: State, p: nat)
    requires Moves(s, step, m)
    ensures p in m.pending ==> p in s.pending || (step.Begin? && step.p == p)
    ensures step == CallClear(p) ==> p !in m.pending
  {
  }

  /** The steps that a send in progress has left. */
  function StepsLeft(s: State, id: nat): nat {
    if id !in s.sends then 0
    else match s.sends[id].stage
      case Marked => 3
      case Unmasked => 2
      case Selected => 1
  }

  lemma SendStep(s: State, step: Step, m: State, id: nat)
    requires Moves(s, step, m) && !(step.Begin? && step.id == id)
    ensures StepsLeft(m, id) + (if step == Continue(id) then 1 else 0) <= StepsLeft(s, id)
  {
  }

  ghost function Continues(steps: seq<Step>, i: nat, n: nat, id: nat): nat
    requires i <= n <= |steps|
  {
    if n == i then 0 else Continues(steps, i, n - 1, id) + if steps[n - 1] == Continue(id) then 1 else 0
  }

  /** A send is over after at most three more steps of its own. */
  lemma {:induction false} SendEnds(trace: seq<State>, steps: seq<Step>, i: nat, n: nat, id: nat)
    requires IsRun(trace, steps) && i <= n < |trace|
    requires forall k :: i <= k < n ==> !(steps[k].Begin? && steps[k].id == id)
    ensures StepsLeft(trace[n], id) + Continues(steps, i, n, id) <= StepsLeft(trace[i], id) <= 3
  {
    if n > i {
      SendEnds(trace, steps, i, n - 1, id);
      assert Moves(trace[n - 1], steps[n - 1], trace[n]);
      SendStep(trace[n - 1], steps[n - 1], trace[n], id);
    }
  }

  /** The activation at place d is a call that forces the callback if an upcall is due. */
  ghost predicate Forcing(s: State, d: nat) {
    d < |s.stack| && (s.stack[d].Enable? || s.stack[d].Force?)
  }

  lemma ForcingStep(s: State, step: Step, m: State, d: nat)
    requires Moves(s, step, m) && Forcing(s, d)
    ensures if |m.stack| > d then Forcing(m, d) else !m.upcall
  {
    StackBelow(s, step, m);
    if d == |s.stack| - 1 && step.Run? {
      match s.Top()
      case Enable =>
      case Force(pc) =>
        assert RunTop(s, step.bit) == RunForce(s, pc);
    }
  }

  /** The call made at step i has not returned before n. */
  ghost predicate Within(trace: seq<State>, i: nat, n: nat) {
    forall k :: i < k < n < |trace| ==> |trace[k].stack| > |trace[i].stack|
  }

  lemma {:induction false} EnableOnRuns(trace: seq<State>, steps: seq<Step>, i: nat, n: nat)
    requires IsRun(trace, steps) && i < n < |trace| && steps[i] == CallEnable && Within(trace, i, n)
    ensures if |trace[n].stack| > |trace[i].stack| then Forcing(trace[n], |trace[i].stack|) else !trace[n].upcall
  {
    assert Moves(trace[n - 1], steps[n - 1], trace[n]);
    if n > i + 1 {
      EnableOnRuns(trace, steps, i, n - 1);
      ForcingStep(trace[n - 1], steps[n - 1], trace[n], |trace[i].stack|);
    }
  }

  /** local_irq_enable does not return while an upcall is due. */
  lemma EnableDelivers(trace: seq<State>, steps: seq<Step>, i: nat, n: nat)
    requires IsRun(trace, steps) && i < n < |trace| && steps[i] == CallEnable && Within(trace, i, n)
    requires |trace[n].stack| <= |trace[i].stack|
    ensures !trace[n].upcall
  {
    EnableOnRuns(trace, steps, i, n);
  }

  /** What is so when unmask_evtchn returns: if its event is pending, then it
      has been signalled by another, or upcalls are masked, or none is due. */
  ghost predicate SeenTo(s: State, p: nat) {
    p !in s.pending || WordOf(p) in s.sel || s.upcallMask || !s.upcall
  }

  lemma UnmaskStep(s: State, step: Step, m: State, d: nat, p: nat)
    requires Moves(s, step, m) && d < |s.stack| && s.stack[d].Unmask? && s.stack[d].port == p
    ensures if |m.stack| > d then Forcing(m, d) || (m.stack[d].Unmask? && m.stack[d].port == p) else SeenTo(m, p)
  {
    StackBelow(s, step, m);
    if d == |s.stack| - 1 && step.Run? {
      assert RunTop(s, step.bit) == RunUnmask(s, p, s.Top().pc);
    }
  }

  lemma {:induction false} UnmaskOnRuns(trace: seq<State>, steps: seq<Step>, i: nat, n: nat, p: nat)
    requires IsRun(trace, steps) && i < n < |trace| && steps[i] == CallUnmask(p) && Within(trace, i, n)
    ensures var d := |trace[i].stack|;
      if |trace[n].stack| > d then Forcing(trace[n], d) || (trace[n].stack[d].Unmask? && trace[n].stack[d].port == p)
      else SeenTo(trace[n], p)
  {
    assert Moves(trace[n - 1], steps[n - 1], trace[n]);
    if n > i + 1 {
      UnmaskOnRuns(trace, steps, i, n - 1, p);
      var s, d := trace[n - 1], |trace[i].stack|;
      if Forcing(s, d) {
        ForcingStep(s, steps[n - 1], trace[n], d);
      } else {
        UnmaskStep(s, steps[n - 1], trace[n], d, p);
      }
    }
  }

  /** unmask_evtchn delivers before it returns. */
  lemma UnmaskDelivers(trace: seq<State>, steps: seq<Step>, i: nat, n: nat, p: nat)
    requires IsRun(trace, steps) && i < n < |trace| && steps[i] == CallUnmask(p) && Within(trace, i, n)
    requires |trace[n].stack| <= |trace[i].stack|
    ensures SeenTo(trace[n], p)
  {
    UnmaskOnRuns(trace, steps, i, n, p);
  }

  /** The activation at place d is that which entered an upcall, and is to leave it. */
  ghost predicate Returning(s: State, d: nat) {
    d < |s.stack| && s.stack[d].Return?
  }

  lemma ReturningStep(s: State, step: Step, m: State, d: nat)
    requires Moves(s, step, m) && Returning(s, d)
    ensures if |m.stack| > d then Returning(m, d) else !m.upcall
  {
    StackBelow(s, step, m);
    if d == |s.stack| - 1 && step.Run? {
      match s.Top()
      case Return(reenabled) =>
    }
  }

  lemma {:induction false} UpcallOnRuns(trace: seq<State>, steps: seq<Step>, i: nat, n: nat)
    requires IsRun(trace, steps) && i < n < |trace| && steps[i] == Upcall && Within(trace, i, n)
    ensures if |trace[n].stack| > |trace[i].stack| then Returning(trace[n], |trace[i].stack|) else !trace[n].upcall
  {
    assert Moves(trace[n - 1], steps[n - 1], trace[n]);
    if n > i + 1 {
      UpcallOnRuns(trace, steps, i, n - 1);
      ReturningStep(trace[n - 1], steps[n - 1], trace[n], |trace[i].stack|);
    }
  }

  /** An upcall does not return while another is due; and when it returns to the
      thread, with no send in progress, every event that is still pending is masked. */
  lemma UpcallDelivers(trace: seq<State>, steps: seq<Step>, i: nat, n: nat)
    requires IsRun(trace, steps) && i < n < |trace| && steps[i] == Upcall && Within(trace, i, n)
    requires |trace[n].stack| <= |trace[i].stack|
    ensures !trace[n].upcall
    ensures trace[n].stack == [] && trace[n].sends == map[] ==> trace[n].pending <= trace[n].mask
  {
    UpcallOnRuns(trace, steps, i, n);
    if trace[n].stack == [] && trace[n].sends == map[] {
      NoLostEvent(trace, steps, n);
    }
  }

  // ----- the upcall mask

  /** The upcall mask while an activation is on top, if it was below when the
      activation began: the callback runs with it set. */
  function FrameLevel(f: Frame, below: bool): bool {
    match f
    case Callback(_) => true
    case Return(reenabled) => !reenabled
    case Force(Restore(_)) => true
    case _ => below
  }

  /** The activation was entered as it should be, and has saved what it should have. */
  predicate FrameOk(f: Frame, below: bool) {
    match f
    case Callback(_) => below
    case Return(_) => !below
    case Force(Save) => true
    case Force(pos) => pos.save == below
    case _ => true
  }

  /** The upcall mask under a stack of activations, if base is what the thread asked for. */
  function Level(stack: seq<Frame>, base: bool): bool {
    if stack == [] then base else FrameLevel(stack[|stack| - 1], Level(stack[..|stack| - 1], base))
  }

  ghost predicate Nested(stack: seq<Frame>, base: bool) {
    stack == [] || (Nested(stack[..|stack| - 1], base)
      && FrameOk(stack[|stack| - 1], Level(stack[..|stack| - 1], base)))
  }

  lemma Pushed(stack: seq<Frame>, f: Frame, base: bool)
    ensures Level(stack + [f], base) == FrameLevel(f, Level(stack, base))
    ensures Nested(stack + [f], base) <==> Nested(stack, base) && FrameOk(f, Level(stack, base))
  {
    assert (stack + [f])[..|stack|] == stack;
  }

  lemma PushedTwo(stack: seq<Frame>, f: Frame, g: Frame, base: bool)
    ensures Level(stack + [f, g], base) == FrameLevel(g, FrameLevel(f, Level(stack, base)))
    ensures Nested(stack + [f, g], base) <==>
      Nested(stack, base) && FrameOk(f, Level(stack, base)) && FrameOk(g, FrameLevel(f, Level(stack, base)))
  {
    Pushed(stack, f, base);
    Pushed(stack + [f], g, base);
    assert stack + [f] + [g] == stack + [f, g];
  }

  /** The upcall mask is what the stack says. */
  ghost predicate Masking(s: State, base: bool) {
    Nested(s.stack, base) && s.upcallMask == Level(s.stack, base)
  }

  /** The top activation returns. */
  lemma MaskingGone(s: State, m: State, base: bool)
    requires Masking(s, base) && s.stack != [] && m.stack == s.stack[..|s.stack| - 1] + []
    requires var below := Level(s.stack[..|s.stack| - 1], base);
      FrameOk(s.Top(), below) && s.upcallMask == FrameLevel(s.Top(), below) ==> m.upcallMask == below
    ensures Masking(m, base)
  {
    assert m.stack == s.stack[..|s.stack| - 1];
  }

  /** The top activation goes on as f. */
  lemma MaskingOne(s: State, m: State, f: Frame, base: bool)
    requires Masking(s, base) && s.stack != [] && m.stack == s.stack[..|s.stack| - 1] + [f]
    requires var below := Level(s.stack[..|s.stack| - 1], base);
      FrameOk(s.Top(), below) && s.upcallMask == FrameLevel(s.Top(), below) ==>
      FrameOk(f, below) && m.upcallMask == FrameLevel(f, below)
    ensures Masking(m, base)
  {
    Pushed(s.stack[..|s.stack| - 1], f, base);
  }

  /** The top activation goes on as f and enters the callback. */
  lemma MaskingTwo(s: State, m: State, f: Frame, base: bool)
    requires Masking(s, base) && s.stack != [] && m.stack == s.stack[..|s.stack| - 1] + [f, Callback(Enter)]
    requires var below := Level(s.stack[..|s.stack| - 1], base);
      FrameOk(s.Top(), below) && s.upcallMask == FrameLevel(s.Top(), below) ==>
      FrameOk(f, below) && FrameLevel(f, below) && m.upcallMask
    ensures Masking(m, base)
  {
    PushedTwo(s.stack[..|s.stack| - 1], f, Callback(Enter), base);
  }

  lemma MaskingCallback(s: State, pc: CallbackPc, bit: nat, base: bool)
    requires Masking(s, base) && s.stack != [] && s.Top() == Callback(pc) && !pc.Handler?
    ensures Masking(RunCallback(s, pc, bit), base)
  {
    var m := RunCallback(s, pc, bit);
    match pc
    case Enter => MaskingOne(s, m, Callback(Swap), base);
    case Swap => MaskingOne(s, m, Callback(Pick(s.sel)), base);
    case Pick(l1) =>
      if l1 == {} {
        MaskingGone(s, m, base);
      } else {
        MaskingOne(s, m, Callback(ReadPending(l1 - {bit}, bit)), base);
      }
    case ReadPending(l1, w) =>
      MaskingOne(s, m, Callback(ReadMask(l1, w, set q | q in s.pending && WordOf(q) == w)), base);
    case ReadMask(l1, w, seen) =>
      MaskingOne(s, m, Callback(if seen - s.mask == {} then Pick(l1) else Event(l1, w, bit)), base);
    case Event(l1, w, p) => MaskingOne(s, m, Callback(Handler(l1, w)), base);
  }

  lemma MaskingUnmask(s: State, p: nat, pc: UnmaskPc, base: bool)
    requires Masking(s, base) && s.stack != [] && s.Top() == Unmask(p, pc)
    ensures Masking(RunUnmask(s, p, pc), base)
  {
    var m := RunUnmask(s, p, pc);
    if m.stack == s.stack[..|s.stack| - 1] + [] {
      MaskingGone(s, m, base);
    } else {
      match pc
      case ClearMask => MaskingOne(s, m, Unmask(p, TestPending), base);
      case TestPending => MaskingOne(s, m, Unmask(p, TestSelector), base);
      case TestSelector => MaskingOne(s, m, Unmask(p, SetUpcall), base);
      case SetUpcall => MaskingOne(s, m, Unmask(p, TestUpcallMask), base);
      case TestUpcallMask => MaskingOne(s, m, Force(Save), base);
    }
  }

  lemma MaskingForce(s: State, pc: ForcePc, base: bool)
    requires Masking(s, base) && s.stack != [] && s.Top() == Force(pc)
    ensures Masking(RunForce(s, pc), base)
  {
    var m := RunForce(s, pc);
    match pc
    case Save => MaskingOne(s, m, Force(Check(s.upcallMask)), base);
    case Check(save) =>
      if s.upcall {
        MaskingOne(s, m, Force(SetMask(save)), base);
      } else {
        MaskingGone(s, m, base);
      }
    case SetMask(save) => MaskingTwo(s, m, Force(Restore(save)), base);
    case Restore(save) => MaskingOne(s, m, Force(Check(save)), base);
  }

  lemma MaskingRun(s: State, bit: nat, base: bool)
    requires Masking(s, base) && s.stack != [] && !s.InCode()
    ensures Masking(RunTop(s, bit), base)
  {
    var m := RunTop(s, bit);
    match s.Top()
    case Callback(pc) => MaskingCallback(s, pc, bit, base);
    case Unmask(p, pc) => MaskingUnmask(s, p, pc, base);
    case Force(pc) => MaskingForce(s, pc, base);
    case Enable =>
      if s.upcall {
        MaskingOne(s, m, Force(Save), base);
      } else {
        MaskingGone(s, m, base);
      }
    case Return(false) => MaskingOne(s, m, Return(true), base);
    case Return(true) =>
      if s.upcall {
        MaskingTwo(s, m, Return(false), base);
      } else {
        MaskingGone(s, m, base);
      }
  }

  /** unmask_evtchn is called, or an upcall comes. */
  lemma MaskingPushed(s: State, m: State, base: bool)
    requires Masking(s, base)
    requires
      || (exists p :: m.stack == s.stack + [Unmask(p, ClearMask)] && m.upcallMask == s.upcallMask)
      || (m.stack == s.stack + [Return(false), Callback(Enter)] && !s.upcallMask && m.upcallMask)
    ensures Masking(m, base)
  {
    if m.stack == s.stack + [Return(false), Callback(Enter)] {
      PushedTwo(s.stack, Return(false), Callback(Enter), base);
    } else {
      var p :| m.stack == s.stack + [Unmask(p, ClearMask)] && m.upcallMask == s.upcallMask;
      Pushed(s.stack, Unmask(p, ClearMask), base);
    }
  }

  lemma MaskingSame(s: State, m: State, base: bool)
    requires Masking(s, base) && m.stack == s.stack && m.upcallMask == s.upcallMask
    ensures Masking(m, base)
  {
  }

  /** A step other than a thread's own calls keeps it so. */
  lemma MaskingStep(s: State, step: Step, m: State, base: bool)
    requires Moves(s, step, m) && Masking(s, base) && !step.CallDisable? && !step.CallEnable?
    ensures Masking(m, base)
  {
    if step.Run? {
      MaskingRun(s, step.bit, base);
    } else if step.HandlerReturns? {
      MaskingOne(s, m, Callback(ReadPending(s.Top().at.l1, s.Top().at.word)), base);
    } else if step.CallUnmask? || step.Upcall? {
      MaskingPushed(s, m, base);
    } else {
      MaskingSame(s, m, base);
    }
  }

  /** What the thread last asked for. */
  ghost function Asked(trace: seq<State>, steps: seq<Step>, n: nat): bool
    requires n < |trace| == |steps| + 1
  {
    if n == 0 then trace[0].upcallMask
    else if steps[n - 1] == CallDisable then true
    else if steps[n - 1] == CallEnable then false
    else Asked(trace, steps, n - 1)
  }

  lemma {:induction false} MaskingOnRuns(trace: seq<State>, steps: seq<Step>, n: nat)
    requires IsRun(trace, steps) && n < |trace|
    requires forall k :: 0 <= k < n && (steps[k] == CallDisable || steps[k] == CallEnable) ==> trace[k].stack == []
    ensures Masking(trace[n], Asked(trace, steps, n))
  {
    if n > 0 {
      MaskingOnRuns(trace, steps, n - 1);
      var s, step, m := trace[n - 1], steps[n - 1], trace[n];
      assert Moves(s, step, m);
      if step == CallEnable {
        Pushed([], Enable, false);
      } else if step != CallDisable {
        MaskingStep(s, step, m, Asked(trace, steps, n - 1));
      }
    }
  }

  /** If handlers leave it alone, the upcall mask is what the thread last asked
      for whenever the thread runs: every callback gives it back. */
  lemma UpcallMaskRestored(trace: seq<State>, steps: seq<Step>, n: nat)
    requires IsRun(trace, steps) && n < |trace| && trace[n].stack == []
    requires forall k :: 0 <= k < n && (steps[k] == CallDisable || steps[k] == CallEnable) ==> trace[k].stack == []
    ensures trace[n].upcallMask == Asked(trace, steps, n)
  {
    MaskingOnRuns(trace, steps, n);
  }

  // ----- left alone, the guest finishes

  /** The guest goes on, and calls nothing. */
  predicate Alone(step: Step) {
    step.Run? || step.HandlerReturns?
  }

  /** How much an activation may still do. */
  function Rank(f: Frame): nat {
    match f
    case Callback(Enter) => 3
    case Callback(Swap) => 2
    case Callback(Pick(l1)) => 1 + 4 * |l1|
    case Callback(ReadPending(l1, _)) => 4 + 4 * |l1|
    case Callback(ReadMask(l1, _, _)) => 7 + 4 * |l1|
    case Callback(Event(l1, _, _)) => 6 + 4 * |l1|
    case Callback(Handler(l1, _)) => 5 + 4 * |l1|
    case Unmask(_, pc) => UnmaskRank(pc)
    case Force(Check(_)) => 1
    case Force(SetMask(_)) => 6
    case Force(_) => 2
    case Enable => 3
    case Return(reenabled) => if reenabled then 1 else 2
  }

  function UnmaskRank(pc: UnmaskPc): nat {
    match pc
    case ClearMask => 17
    case TestPending => 16
    case TestSelector => 15
    case SetUpcall => 10
    case TestUpcallMask => 3
  }

  /** What the activation has seen pending still is. */
  predicate Fresh(f: Frame, pending: set<nat>) {
    match f
    case Callback(ReadMask(_, _, seen)) => seen <= pending
    case Callback(Event(_, _, p)) => p in pending
    case _ => false
  }

  /** The activation is about to clear the upcall flag. */
  predicate Takes(f: Frame) {
    f == Callback(Enter) || (f.Force? && f.pos.SetMask?)
  }

  /** The same for the one on top, with an upcall that is due. */
  function TopRank(f: Frame, pending: set<nat>, upcall: bool): (r: nat)
    ensures r <= Rank(f) + (if upcall then 6 else 0)
  {
    Rank(f) + (if upcall && !Takes(f) then 6 else 0) - if Fresh(f, pending) then 4 else 0
  }

  function StackRank(stack: seq<Frame>): nat {
    if stack == [] then 0 else StackRank(stack[..|stack| - 1]) + Rank(stack[|stack| - 1])
  }

  function Work(stack: seq<Frame>, pending: set<nat>, upcall: bool): (r: nat)
    ensures r <= StackRank(stack) + if upcall then 6 else 0
  {
    if stack == [] then (if upcall then 6 else 0)
    else StackRank(stack[..|stack| - 1]) + TopRank(stack[|stack| - 1], pending, upcall)
  }

  function Measure(s: State): nat {
    4 * |s.pending| + 4 * |s.sel| + Work(s.stack, s.pending, s.upcall)
  }

  lemma WorkTop(below: seq<Frame>, f: Frame, pending: set<nat>, upcall: bool)
    ensures Work(below + [f], pending, upcall) == StackRank(below) + TopRank(f, pending, upcall)
    ensures StackRank(below + [f]) == StackRank(below) + Rank(f)
  {
    assert (below + [f])[..|below|] == below;
  }

  /** The top activation returns. */
  lemma LessGone(s: State, m: State)
    requires s.stack != [] && m == s.Become([]) && 0 < TopRank(s.Top(), s.pending, false)
    requires s.upcall ==> 6 < TopRank(s.Top(), s.pending, true)
    ensures Measure(m) < Measure(s)
  {
    assert m.stack == s.stack[..|s.stack| - 1];
  }

  /** It goes on as f. */
  lemma LessOne(s: State, m: State, f: Frame)
    requires s.stack != [] && m.stack == s.stack[..|s.stack| - 1] + [f]
    requires 4 * |m.pending| + 4 * |m.sel| + TopRank(f, m.pending, m.upcall) <
      4 * |s.pending| + 4 * |s.sel| + TopRank(s.Top(), s.pending, s.upcall)
    ensures Measure(m) < Measure(s)
  {
    WorkTop(s.stack[..|s.stack| - 1], f, m.pending, m.upcall);
  }

  /** It goes on as f and enters the callback. */
  lemma LessTwo(s: State, m: State, f: Frame)
    requires s.stack != [] && m.stack == s.stack[..|s.stack| - 1] + [f, Callback(Enter)]
    requires m.pending == s.pending && m.sel == s.sel && Rank(f) + 3 < TopRank(s.Top(), s.pending, s.upcall)
    ensures Measure(m) < Measure(s)
  {
    var below := s.stack[..|s.stack| - 1];
    WorkTop(below, f, m.pending, m.upcall);
    WorkTop(below + [f], Callback(Enter), m.pending, m.upcall);
    assert below + [f] + [Callback(Enter)] == below + [f, Callback(Enter)];
  }

  lemma LessPick(s: State, l1: set<nat>, bit: nat)
    requires s.stack != [] && s.Top() == Callback(Pick(l1)) && BitFound(s, bit)
    ensures Measure(RunCallback(s, Pick(l1), bit)) < Measure(s)
  {
    var m := RunCallback(s, Pick(l1), bit);
    if l1 == {} {
      LessGone(s, m);
    } else {
      LessOne(s, m, Callback(ReadPending(l1 - {bit}, bit)));
    }
  }

  lemma LessReadMask(s: State, l1: set<nat>, w: nat, seen: set<nat>, bit: nat)
    requires s.stack != [] && s.Top() == Callback(ReadMask(l1, w, seen)) && BitFound(s, bit)
    ensures Measure(RunCallback(s, ReadMask(l1, w, seen), bit)) < Measure(s)
  {
    var m := RunCallback(s, ReadMask(l1, w, seen), bit);
    if seen - s.mask == {} {
      LessOne(s, m, Callback(Pick(l1)));
    } else {
      assert bit in seen - s.mask;
      LessOne(s, m, Callback(Event(l1, w, bit)));
    }
  }

  lemma LessEvent(s: State, l1: set<nat>, w: nat, p: nat, bit: nat)
    requires s.stack != [] && s.Top() == Callback(Event(l1, w, p))
    ensures Measure(RunCallback(s, Event(l1, w, p), bit)) < Measure(s)
  {
    var m := RunCallback(s, Event(l1, w, p), bit);
    if p in s.pending {
      assert |m.pending| == |s.pending| - 1;
    } else {
      assert m.pending == s.pending;
    }
    LessOne(s, m, Callback(Handler(l1, w)));
  }

  lemma LessCallback(s: State, pc: CallbackPc, bit: nat)
    requires s.stack != [] && s.Top() == Callback(pc) && !pc.Handler? && BitFound(s, bit)
    ensures Measure(RunCallback(s, pc, bit)) < Measure(s)
  {
    var m := RunCallback(s, pc, bit);
    match pc
    case Enter => LessOne(s, m, Callback(Swap));
    case Swap => LessOne(s, m, Callback(Pick(s.sel)));
    case Pick(l1) => LessPick(s, l1, bit);
    case ReadPending(l1, w) => LessOne(s, m, Callback(ReadMask(l1, w, set q | q in s.pending && WordOf(q) == w)));
    case ReadMask(l1, w, seen) => LessReadMask(s, l1, w, seen, bit);
    case Event(l1, w, p) => LessEvent(s, l1, w, p, bit);
  }

  lemma LessUnmask(s: State, p: nat, pc: UnmaskPc)
    requires s.stack != [] && s.Top() == Unmask(p, pc)
    ensures Measure(RunUnmask(s, p, pc)) < Measure(s)
  {
    var m := RunUnmask(s, p, pc);
    match pc
    case ClearMask => LessOne(s, m, Unmask(p, TestPending));
    case TestPending =>
      if p in s.pending {
        LessOne(s, m, Unmask(p, TestSelector));
      } else {
        LessGone(s, m);
      }
    case TestSelector =>
      if WordOf(p) in s.sel {
        LessGone(s, m);
      } else {
        LessOne(s, m, Unmask(p, SetUpcall));
      }
    case SetUpcall => LessOne(s, m, Unmask(p, TestUpcallMask));
    case TestUpcallMask =>
      if s.upcallMask {
        LessGone(s, m);
      } else {
        LessOne(s, m, Force(Save));
      }
  }

  lemma LessForce(s: State, pc: ForcePc)
    requires s.stack != [] && s.Top() == Force(pc)
    ensures Measure(RunForce(s, pc)) < Measure(s)
  {
    var m := RunForce(s, pc);
    match pc
    case Save => LessOne(s, m, Force(Check(s.upcallMask)));
    case Check(save) =>
      if s.upcall {
        LessOne(s, m, Force(SetMask(save)));
      } else {
        LessGone(s, m);
      }
    case SetMask(save) => LessTwo(s, m, Force(Restore(save)));
    case Restore(save) => LessOne(s, m, Force(Check(save)));
  }

  lemma LessRun(s: State, bit: nat)
    requires s.stack != [] && !s.InCode() && BitFound(s, bit)
    ensures Measure(RunTop(s, bit)) < Measure(s)
  {
    var m := RunTop(s, bit);
    match s.Top()
    case Callback(pc) => LessCallback(s, pc, bit);
    case Unmask(p, pc) => LessUnmask(s, p, pc);
    case Force(pc) => LessForce(s, pc);
    case Enable =>
      if s.upcall {
        LessOne(s, m, Force(Save));
      } else {
        LessGone(s, m);
      }
    case Return(false) => LessOne(s, m, Return(true));
    case Return(true) =>
      if s.upcall {
        LessTwo(s, m, Return(false));
      } else {
        LessGone(s, m);
      }
  }

  lemma LessAlone(s: State, step: Step, m: State)
    requires Moves(s, step, m) && Alone(step)
    ensures Measure(m) < Measure(s)
  {
    if step.Run? {
      LessRun(s, step.bit);
    } else {
      LessOne(s, m, Callback(ReadPending(s.Top().at.l1, s.Top().at.word)));
    }
  }

  /** Left alone from step i on, the guest makes no more steps than the measure says. */
  lemma {:induction false} AloneEnds(trace: seq<State>, steps: seq<Step>, i: nat, n: nat)
    requires IsRun(trace, steps) && i <= n < |trace| && forall k :: i <= k < n ==> Alone(steps[k])
    ensures n - i + Measure(trace[n]) <= Measure(trace[i])
  {
    if n > i {
      AloneEnds(trace, steps, i, n - 1);
      assert Moves(trace[n - 1], steps[n - 1], trace[n]);
      LessAlone(trace[n - 1], steps[n - 1], trace[n]);
    }
  }

  lemma {:induction false} LowestExists(s: set<nat>) returns (x: nat)
    requires s != {}
    ensures Lowest(x, s)
  {
    var one :| one in s;
    var rest := s - {one};
    x := one;
    if rest != {} {
      var other := LowestExists(rest);
      x := if other < one then other else one;
    }
    forall y | y in s
      ensures x <= y
    {
      assert y == one || y in rest;
    }
  }

  /** And it can go on until the stack is empty. */
  lemma AloneGoesOn(s: State) returns (step: Step)
    requires s.stack != []
    ensures Alone(step) && Enabled(s, step)
  {
    step := if s.InCode() then HandlerReturns else Run(0);
    match s.Top()
    case Callback(Pick(l1)) =>
      if l1 != {} {
        var bit := LowestExists(l1);
        step := Run(bit);
      }
    case Callback(ReadMask(_, _, seen)) =>
      if seen - s.mask != {} {
        var bit := LowestExists(seen - s.mask);
        step := Run(bit);
      }
    case _ =>
  }
}
