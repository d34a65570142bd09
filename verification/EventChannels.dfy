/**
 Event-channel delivery in Mini-OS as a machine of atomic steps.

 The guest runs on one virtual CPU: a stack of activations, of which only the
 top one runs, and on which an upcall may be pushed between any two of its
 steps.  The hypervisor sends events from other CPUs, each send in its own
 steps: it sets the pending bit, tests the mask, sets the selector bit, and
 raises the upcall flag.  Every interleaving of these is a run.
 */
module EventChannels {

  const BITS: nat := 64 // bits in an unsigned long

  /** The selector bit that stands for a port. */
  function WordOf(port: nat): nat {
    port / BITS
  }

  // ----- activations

  /** do_hypervisor_callback; l1 is its local copy of the selector. */
  datatype CallbackPc =
    | Enter                                               // about to clear evtchn_upcall_pending
    | Swap                                                // about to exchange the selector with 0
    | Pick(l1: set<nat>)                                  // at the outer loop's test
    | ReadPending(l1: set<nat>, word: nat)                // about to read evtchn_pending[word]
    | ReadMask(l1: set<nat>, word: nat, seen: set<nat>)   // about to read evtchn_mask[word]
    | Event(l1: set<nat>, word: nat, port: nat)           // in do_event, about to clear the port
    | Handler(l1: set<nat>, word: nat)                    // in the port's handler

  datatype UnmaskPc = ClearMask | TestPending | TestSelector | SetUpcall | TestUpcallMask

  datatype ForcePc = Save | Check(save: bool) | SetMask(save: bool) | Restore(save: bool)

  datatype Frame =
    | Callback(at: CallbackPc)
    | Unmask(port: nat, pc: UnmaskPc)   // unmask_evtchn
    | Force(pos: ForcePc)               // force_evtchn_callback
    | Enable                            // local_irq_enable, about to test for an upcall
    | Return(reenabled: bool)           // leaving the upcall: reenable, then test for another

  /** A send in progress. */
  datatype Stage = Marked | Unmasked | Selected
  datatype Send = Send(port: nat, stage: Stage)

  datatype State = State(
    pending: set<nat>, mask: set<nat>, sel: set<nat>,
    upcall: bool, upcallMask: bool,
    stack: seq<Frame>, sends: map<nat, Send>,
    handled: seq<nat>)    // the ports whose handlers have been entered, in order
  {
    function Top(): Frame
      requires stack != []
    {
      stack[|stack| - 1]
    }

    /** The top activation replaced by others. */
    function Become(frames: seq<Frame>): State
      requires stack != []
    {
      this.(stack := stack[..|stack| - 1] + frames)
    }

    /** Guest code of its own choosing runs: a thread, or a handler. */
    predicate InCode() {
      stack == [] || (Top().Callback? && Top().at.Handler?)
    }
  }

  predicate Lowest(x: nat, s: set<nat>) {
    x in s && forall y :: y in s ==> x <= y
  }

  // ----- steps

  datatype Step =
    | Run(bit: nat)           // the top activation goes on; bit is what __ffs finds, if it is used
    | HandlerReturns
    | CallMask(p: nat)        // mask_evtchn
    | CallClear(p: nat)       // clear_evtchn
    | CallUnmask(p: nat)
    | CallDisable             // local_irq_disable
    | CallEnable              // local_irq_enable
    | Upcall                  // the hypervisor enters the callback
    | Begin(id: nat, p: nat)  // the hypervisor starts to send
    | Continue(id: nat)

  predicate Enabled(s: State, step: Step) {
    match step
    case Run(bit) => s.stack != [] && !s.InCode() && BitFound(s, bit)
    case HandlerReturns => s.stack != [] && s.InCode()
    case Upcall => s.upcall && !s.upcallMask
    case Begin(id, _) => id !in s.sends
    case Continue(id) => id in s.sends
    case _ => s.InCode()
  }

  /** __ffs finds the lowest set bit of the word it is given. */
  predicate BitFound(s: State, bit: nat)
    requires s.stack != []
  {
    match s.Top()
    case Callback(Pick(l1)) => l1 != {} ==> Lowest(bit, l1)
    case Callback(ReadMask(_, _, seen)) => seen - s.mask != {} ==> Lowest(bit, seen - s.mask)
    case _ => true
  }

  function Do(s: State, step: Step): State
    requires Enabled(s, step)
  {
    match step
    case Run(bit) => RunTop(s, bit)
    case HandlerReturns => s.Become([Callback(ReadPending(s.Top().at.l1, s.Top().at.word))])
    case CallMask(p) => s.(mask := s.mask + {p})
    case CallClear(p) => s.(pending := s.pending - {p})
    case CallUnmask(p) => s.(stack := s.stack + [Unmask(p, ClearMask)])
    case CallDisable => s.(upcallMask := true)
    case CallEnable => s.(upcallMask := false, stack := s.stack + [Enable])
    case Upcall => s.(upcallMask := true, stack := s.stack + [Return(false), Callback(Enter)])
    case Begin(id, p) =>
      if p in s.pending then s else s.(pending := s.pending + {p}, sends := s.sends[id := Send(p, Marked)])
    case Continue(id) => SendOn(s, id)
  }

  /** One step of the activation on top, when that is not a handler. */
  function RunTop(s: State, bit: nat): State
    requires s.stack != [] && !s.InCode()
  {
    match s.Top()
    case Callback(pc) => RunCallback(s, pc, bit)
    case Unmask(p, pc) => RunUnmask(s, p, pc)
    case Force(pc) => RunForce(s, pc)
    case Enable => if s.upcall then s.Become([Force(Save)]) else s.Become([])
    case Return(false) => s.(upcallMask := false).Become([Return(true)])
    case Return(true) =>
      if s.upcall then s.(upcallMask := true).Become([Return(false), Callback(Enter)]) else s.Become([])
  }

  function RunCallback(s: State, pc: CallbackPc, bit: nat): State
    requires s.stack != []
  {
    match pc
    case Enter => s.(upcall := false).Become([Callback(Swap)])
    case Swap => s.(sel := {}).Become([Callback(Pick(s.sel))])
    case Pick(l1) => if l1 == {} then s.Become([]) else s.Become([Callback(ReadPending(l1 - {bit}, bit))])
    case ReadPending(l1, w) =>
      s.Become([Callback(ReadMask(l1, w, set q | q in s.pending && WordOf(q) == w))])
    case ReadMask(l1, w, seen) =>
      if seen - s.mask == {} then s.Become([Callback(Pick(l1))]) else s.Become([Callback(Event(l1, w, bit))])
    case Event(l1, w, p) =>
      s.(pending := s.pending - {p}, handled := s.handled + [p]).Become([Callback(Handler(l1, w))])
    case Handler(_, _) => s
  }

  function RunUnmask(s: State, p: nat, pc: UnmaskPc): State
    requires s.stack != []
  {
    match pc
    case ClearMask => s.(mask := s.mask - {p}).Become([Unmask(p, TestPending)])
    case TestPending => if p in s.pending then s.Become([Unmask(p, TestSelector)]) else s.Become([])
    case TestSelector =>
      if WordOf(p) in s.sel then s.Become([]) else s.(sel := s.sel + {WordOf(p)}).Become([Unmask(p, SetUpcall)])
    case SetUpcall => s.(upcall := true).Become([Unmask(p, TestUpcallMask)])
    case TestUpcallMask => if s.upcallMask then s.Become([]) else s.Become([Force(Save)])
  }

  function RunForce(s: State, pc: ForcePc): State
    requires s.stack != []
  {
    match pc
    case Save => s.Become([Force(Check(s.upcallMask))])
    case Check(save) => if s.upcall then s.Become([Force(SetMask(save))]) else s.Become([])
    case SetMask(save) => s.(upcallMask := true).Become([Force(Restore(save)), Callback(Enter)])
    case Restore(save) => s.(upcallMask := save).Become([Force(Check(save))])
  }

  function SendOn(s: State, id: nat): State
    requires id in s.sends
  {
    var send := s.sends[id];
    match send.stage
    case Marked =>
      if send.port in s.mask then s.(sends := s.sends - {id}) else s.(sends := s.sends[id := Send(send.port, Unmasked)])
    case Unmasked =>
      if WordOf(send.port) in s.sel then s.(sends := s.sends - {id})
      else s.(sel := s.sel + {WordOf(send.port)}, sends := s.sends[id := Send(send.port, Selected)])
    case Selected => s.(upcall := true, sends := s.sends - {id})
  }

  // ----- what every step keeps

  /** The activation has the port's word still before it, or will act on the
      bit it has seen, or is about to look at the port. */
  ghost predicate FrameCovers(f: Frame, port: nat) {
    match f
    case Callback(Pick(l1)) => WordOf(port) in l1
    case Callback(ReadPending(l1, w)) => WordOf(port) == w || WordOf(port) in l1
    case Callback(ReadMask(l1, w, seen)) => (port in seen && WordOf(port) == w) || WordOf(port) in l1
    case Callback(Event(l1, w, _)) => WordOf(port) == w || WordOf(port) in l1
    case Callback(Handler(l1, w)) => WordOf(port) == w || WordOf(port) in l1
    case Unmask(p, pc) => p == port && (pc == TestPending || pc == TestSelector)
    case _ => false
  }

  ghost predicate StackCovers(stack: seq<Frame>, port: nat) {
    exists i :: 0 <= i < |stack| && FrameCovers(stack[i], port)
  }

  /** A send of the port has yet to set its selector bit. */
  ghost predicate SendCovers(sends: map<nat, Send>, port: nat) {
    exists id :: id in sends && sends[id].port == port && sends[id].stage != Selected
  }

  ghost predicate Covered(s: State, port: nat) {
    WordOf(port) in s.sel || StackCovers(s.stack, port) || SendCovers(s.sends, port)
  }

  /** The activation is about to raise the upcall flag, or to take the selector. */
  ghost predicate FrameRaises(f: Frame) {
    f == Callback(Swap) || (f.Unmask? && f.pc == SetUpcall)
  }

  ghost predicate StackRaises(stack: seq<Frame>) {
    exists i :: 0 <= i < |stack| && FrameRaises(stack[i])
  }

  ghost predicate SendRaises(sends: map<nat, Send>) {
    exists id :: id in sends && sends[id].stage == Selected
  }

  /** No event is lost, and a set selector leads to another upcall. */
  ghost predicate Inv(s: State) {
    && (forall port :: port in s.pending && port !in s.mask ==> Covered(s, port))
    && (s.sel != {} ==> s.upcall || StackRaises(s.stack) || SendRaises(s.sends))
  }

  lemma CoversBelow(stack: seq<Frame>, frames: seq<Frame>, port: nat)
    requires stack != []
    ensures StackCovers(stack, port) ==>
      StackCovers(stack[..|stack| - 1] + frames, port) || FrameCovers(stack[|stack| - 1], port)
    ensures StackCovers(frames, port) ==> StackCovers(stack[..|stack| - 1] + frames, port)
  {
    var now := stack[..|stack| - 1] + frames;
    if StackCovers(stack, port) {
      var i :| 0 <= i < |stack| && FrameCovers(stack[i], port);
      assert i < |stack| - 1 ==> now[i] == stack[i];
    }
    if StackCovers(frames, port) {
      var i :| 0 <= i < |frames| && FrameCovers(frames[i], port);
      assert now[|stack| - 1 + i] == frames[i];
    }
  }

  lemma RaisesBelow(stack: seq<Frame>, frames: seq<Frame>)
    requires stack != []
    ensures StackRaises(stack) ==> StackRaises(stack[..|stack| - 1] + frames) || FrameRaises(stack[|stack| - 1])
    ensures StackRaises(frames) ==> StackRaises(stack[..|stack| - 1] + frames)
  {
    var now := stack[..|stack| - 1] + frames;
    if StackRaises(stack) {
      var i :| 0 <= i < |stack| && FrameRaises(stack[i]);
      assert i < |stack| - 1 ==> now[i] == stack[i];
    }
    if StackRaises(frames) {
      var i :| 0 <= i < |frames| && FrameRaises(frames[i]);
      assert now[|stack| - 1 + i] == frames[i];
    }
  }

  /** Activations may be pushed without harm. */
  lemma PushKeeps(stack: seq<Frame>, frames: seq<Frame>, port: nat)
    ensures StackCovers(stack, port) ==> StackCovers(stack + frames, port)
    ensures StackRaises(stack) ==> StackRaises(stack + frames)
  {
    if StackCovers(stack, port) {
      var i :| 0 <= i < |stack| && FrameCovers(stack[i], port);
      assert (stack + frames)[i] == stack[i];
    }
    if StackRaises(stack) {
      var i :| 0 <= i < |stack| && FrameRaises(stack[i]);
      assert (stack + frames)[i] == stack[i];
    }
  }

  /** Replacing the top activation is safe if whatever it stood for is still stood for. */
  lemma BecomeKeeps(s: State, m: State, frames: seq<Frame>)
    requires Inv(s) && s.stack != [] && m.stack == s.stack[..|s.stack| - 1] + frames && m.sends == s.sends
    requires forall port ::
      port in m.pending && port !in m.mask && !StackCovers(frames, port) && WordOf(port) !in m.sel ==>
      port in s.pending && port !in s.mask && WordOf(port) !in s.sel && !FrameCovers(s.Top(), port)
    requires m.sel != {} && !m.upcall && !StackRaises(frames) ==>
      s.sel != {} && !s.upcall && !FrameRaises(s.Top())
    ensures Inv(m)
  {
    forall port | port in m.pending && port !in m.mask
      ensures Covered(m, port)
    {
      CoversBelow(s.stack, frames, port);
    }
    RaisesBelow(s.stack, frames);
  }

  lemma CoversOne(f: Frame)
    ensures forall port :: FrameCovers(f, port) ==> StackCovers([f], port)
    ensures FrameRaises(f) ==> StackRaises([f])
  {
    forall port | FrameCovers(f, port)
      ensures StackCovers([f], port)
    {
      assert [f][0] == f;
    }
    assert [f][0] == f;
  }

  lemma CallbackKeeps(s: State, bit: nat)
    requires Inv(s) && s.stack != [] && !s.InCode() && s.Top().Callback? && BitFound(s, bit)
    ensures Inv(RunTop(s, bit))
  {
    var m := RunTop(s, bit);
    match s.Top().at
    case Enter =>
      CoversOne(Callback(Swap));
      BecomeKeeps(s, m, [Callback(Swap)]);
    case Swap =>
      CoversOne(Callback(Pick(s.sel)));
      BecomeKeeps(s, m, [Callback(Pick(s.sel))]);
    case Pick(l1) =>
      if l1 == {} {
        BecomeKeeps(s, m, []);
      } else {
        CoversOne(Callback(ReadPending(l1 - {bit}, bit)));
        BecomeKeeps(s, m, [Callback(ReadPending(l1 - {bit}, bit))]);
      }
    case ReadPending(l1, w) =>
      var f := Callback(ReadMask(l1, w, set q | q in s.pending && WordOf(q) == w));
      CoversOne(f);
      BecomeKeeps(s, m, [f]);
    case ReadMask(l1, w, seen) =>
      ReadMaskKeeps(s, bit, l1, w, seen);
    case Event(l1, w, p) =>
      CoversOne(Callback(Handler(l1, w)));
      BecomeKeeps(s, m, [Callback(Handler(l1, w))]);
  }

  /** Leaving a word drops no port: one that was seen is masked, and one that
      was not seen became pending later and is covered elsewhere. */
  lemma ReadMaskKeeps(s: State, bit: nat, l1: set<nat>, w: nat, seen: set<nat>)
    requires Inv(s) && s.stack != [] && s.Top() == Callback(ReadMask(l1, w, seen)) && BitFound(s, bit)
    ensures Inv(RunTop(s, bit))
  {
    var m := RunTop(s, bit);
    var f := Callback(if seen - s.mask == {} then Pick(l1) else Event(l1, w, bit));
    CoversOne(f);
    forall port | port in m.pending && port !in m.mask && !StackCovers([f], port)
      ensures !FrameCovers(s.Top(), port)
    {
      assert port in seen && port !in s.mask ==> port in seen - s.mask;
    }
    BecomeKeeps(s, m, [f]);
  }

  lemma UnmaskKeeps(s: State, p: nat, pc: UnmaskPc)
    requires Inv(s) && s.stack != [] && s.Top() == Unmask(p, pc)
    ensures Inv(RunUnmask(s, p, pc))
  {
    var m := RunUnmask(s, p, pc);
    CoversOne(Unmask(p, TestPending));
    CoversOne(Unmask(p, TestSelector));
    CoversOne(Unmask(p, SetUpcall));
    BecomeKeeps(s, m, m.stack[|s.stack| - 1..]);
  }

  lemma ForceKeeps(s: State, pc: ForcePc)
    requires Inv(s) && s.stack != [] && s.Top() == Force(pc)
    ensures Inv(RunForce(s, pc))
  {
    var m := RunForce(s, pc);
    BecomeKeeps(s, m, m.stack[|s.stack| - 1..]);
  }

  lemma RunKeeps(s: State, bit: nat)
    requires Inv(s) && s.stack != [] && !s.InCode() && BitFound(s, bit)
    ensures Inv(RunTop(s, bit))
  {
    var m := RunTop(s, bit);
    match s.Top()
    case Callback(_) => CallbackKeeps(s, bit);
    case Unmask(p, pc) => UnmaskKeeps(s, p, pc);
    case Force(pc) => ForceKeeps(s, pc);
    case Enable => BecomeKeeps(s, m, m.stack[|s.stack| - 1..]);
    case Return(_) => BecomeKeeps(s, m, m.stack[|s.stack| - 1..]);
  }

  /** The selector and upcall flag as a send leaves them. */
  lemma SendKeeps(s: State, id: nat)
    requires Inv(s) && id in s.sends
    ensures Inv(SendOn(s, id))
  {
    var m := SendOn(s, id);
    var send := s.sends[id];
    forall port | port in m.pending && port !in m.mask
      ensures Covered(m, port)
    {
      assert Covered(s, port);
      if SendCovers(s.sends, port) {
        var x :| x in s.sends && s.sends[x].port == port && s.sends[x].stage != Selected;
        if x != id {
          assert m.sends[x] == s.sends[x];
        } else if send.stage == Marked {
          assert id in m.sends && m.sends[id].stage == Unmasked;
        }
      }
    }
    if m.sel != {} && !m.upcall && !StackRaises(m.stack) {
      if id in m.sends && m.sends[id].stage == Selected {
        assert SendRaises(m.sends);
      } else {
        var x :| x in s.sends && s.sends[x].stage == Selected;
        assert x != id && m.sends[x] == s.sends[x];
      }
    }
  }

  lemma BeginKeeps(s: State, id: nat, p: nat)
    requires Inv(s) && id !in s.sends && p !in s.pending
    ensures Inv(s.(pending := s.pending + {p}, sends := s.sends[id := Send(p, Marked)]))
  {
    var m := s.(pending := s.pending + {p}, sends := s.sends[id := Send(p, Marked)]);
    forall port | port in m.pending && port !in m.mask
      ensures Covered(m, port)
    {
      if port == p {
        assert m.sends[id].port == port;
      } else if SendCovers(s.sends, port) {
        var x :| x in s.sends && s.sends[x].port == port && s.sends[x].stage != Selected;
        assert m.sends[x] == s.sends[x];
      }
    }
    if SendRaises(s.sends) {
      var x :| x in s.sends && s.sends[x].stage == Selected;
      assert m.sends[x] == s.sends[x];
    }
  }

  /** Every step of the guest and of the hypervisor keeps the invariant. */
  lemma StepKeeps(s: State, step: Step)
    requires Inv(s) && Enabled(s, step)
    ensures Inv(Do(s, step))
  {
    var m := Do(s, step);
    match step
    case Run(bit) => RunKeeps(s, bit);
    case HandlerReturns =>
      var f := Callback(ReadPending(s.Top().at.l1, s.Top().at.word));
      CoversOne(f);
      BecomeKeeps(s, m, [f]);
    case Begin(id, p) =>
      if p !in s.pending {
        BeginKeeps(s, id, p);
      }
    case Continue(id) => SendKeeps(s, id);
    case CallMask(_) => PushedKeeps(s, m, []);
    case CallClear(_) => PushedKeeps(s, m, []);
    case CallDisable => PushedKeeps(s, m, []);
    case CallUnmask(p) => PushedKeeps(s, m, [Unmask(p, ClearMask)]);
    case CallEnable => PushedKeeps(s, m, [Enable]);
    case Upcall => PushedKeeps(s, m, [Return(false), Callback(Enter)]);
  }

  lemma PushedKeeps(s: State, m: State, frames: seq<Frame>)
    requires Inv(s) && m.stack == s.stack + frames && m.sends == s.sends && m.sel == s.sel && m.upcall == s.upcall
    requires m.pending <= s.pending && s.mask <= m.mask
    ensures Inv(m)
  {
    forall port | port in m.pending && port !in m.mask
      ensures Covered(m, port)
    {
      PushKeeps(s.stack, frames, port);
    }
    PushKeeps(s.stack, frames, 0);
  }

  // ----- runs

  /** Nothing has happened yet: what is pending is masked. */
  ghost predicate Initial(s: State) {
    s.pending <= s.mask && s.sel == {} && s.stack == [] && s.sends == map[]
  }

  ghost predicate IsRun(trace: seq<State>, steps: seq<Step>) {
    && |trace| == |steps| + 1 && Initial(trace[0])
    && forall i :: 0 <= i < |steps| ==> Moves(trace[i], steps[i], trace[i + 1])
  }

  ghost predicate Moves(s: State, step: Step, m: State) {
    Enabled(s, step) && m == Do(s, step)
  }

  lemma {:induction false} InvOnRuns(trace: seq<State>, steps: seq<Step>, n: nat)
    requires IsRun(trace, steps) && n < |trace|
    ensures Inv(trace[n])
  {
    if n > 0 {
      InvOnRuns(trace, steps, n - 1);
      assert Moves(trace[n - 1], steps[n - 1], trace[n]);
      StepKeeps(trace[n - 1], steps[n - 1]);
    }
  }

  /** No lost event.  Whenever the guest is in no event code, no send is in
      progress and no upcall is due, every pending port is masked. */
  lemma NoLostEvent(trace: seq<State>, steps: seq<Step>, n: nat)
    requires IsRun(trace, steps) && n < |trace|
    requires trace[n].stack == [] && trace[n].sends == map[] && !trace[n].upcall
    ensures trace[n].pending <= trace[n].mask && |trace[n].sel| == 0
  {
    InvOnRuns(trace, steps, n);
    var s := trace[n];
    forall port | port in s.pending
      ensures port in s.mask
    {
      assert port !in s.mask ==> Covered(s, port);
    }
  }

  /** A set selector always leads to another upcall: in a quiet guest with the
      upcall not masked, the hypervisor can enter the callback. */
  lemma SelectorLeadsToUpcall(trace: seq<State>, steps: seq<Step>, n: nat)
    requires IsRun(trace, steps) && n < |trace|
    requires trace[n].stack == [] && trace[n].sends == map[] && |trace[n].sel| > 0
    ensures trace[n].upcall && (!trace[n].upcallMask ==> Enabled(trace[n], Upcall))
  {
    InvOnRuns(trace, steps, n);
  }

  // ----- the callback on its own

  /** __ffs, on a word that is not zero. */
  method Ffs(s: set<nat>) returns (x: nat)
    requires |s| > 0
    ensures Lowest(x, s)
  {
    x :| x in s;
    var rest := s - {x};
    while rest != {}
      invariant rest <= s && x in s
      invariant forall y :: y in s && y !in rest ==> x <= y
      decreases rest
    {
      var y :| y in rest;
      rest := rest - {y};
      if y < x {
        x := y;
      }
    }
  }

  predicate Increasing(s: seq<nat>) {
    forall i, j :: 0 <= i < j < |s| ==> s[i] < s[j]
  }

  /** Of the events due, ports have been delivered, in order; those left come later. */
  ghost predicate Progress(due: set<nat>, ports: seq<nat>, left: set<nat>) {
    && Increasing(ports)
    && (forall p :: p in due <==> p in ports || p in left)
    && (forall p, q :: p in ports && q in left ==> p < q)
  }

  lemma Delivered(due: set<nat>, ports: seq<nat>, left: set<nat>, port: nat)
    requires Progress(due, ports, left) && Lowest(port, left)
    ensures Progress(due, ports + [port], left - {port})
  {
    var now := ports + [port];
    forall i, j | 0 <= i < j < |now|
      ensures now[i] < now[j]
    {
      assert now[i] in ports;
    }
    assert forall p :: p in now <==> p in ports || p == port;
  }

  class SharedInfo {
    var pending: set<nat>
    var mask: set<nat>
    var sel: set<nat>
    var upcall: bool
    var handled: seq<nat>

    constructor (mask: set<nat>)
      ensures pending == {} && this.mask == mask && sel == {} && !upcall && handled == []
    {
      pending, this.mask, sel, upcall, handled := {}, mask, {}, false, [];
    }

    /** active_evtchns. */
    function Active(w: nat): set<nat>
      reads this
    {
      set p | p in pending && p !in mask && WordOf(p) == w
    }

    /** The events a callback has to deliver, if words are selected. */
    ghost function Due(words: set<nat>): set<nat>
      reads this
    {
      set p | p in pending && p !in mask && WordOf(p) in words
    }

    /** The inner loop: every active event of one word. */
    method DeliverWord(w: nat, ghost l1: set<nat>, ghost due: set<nat>,
          ghost ports: seq<nat>) returns (ghost more: seq<nat>)
      requires forall v :: v in l1 ==> w < v
      requires Progress(due, ports, Due(l1 + {w}))
      modifies `pending, `handled
      ensures Progress(due, ports + more, Due(l1))
      ensures pending == old(pending) - old(Active(w)) && handled == old(handled) + more
    {
      more := [];
      var l2 := Active(w);
      while l2 != {}
        invariant Progress(due, ports + more, Due(l1 + {w})) && l2 == Active(w) <= old(Active(w))
        invariant pending == old(pending) - (old(Active(w)) - l2) && handled == old(handled) + more
        decreases l2
      {
        var port := Ffs(l2);
        assert Lowest(port, Due(l1 + {w}));
        Delivered(due, ports + more, Due(l1 + {w}), port);
        ghost var left := Due(l1 + {w}) - {port};
        pending := pending - {port};
        handled := handled + [port];
        assert Due(l1 + {w}) == left;
        assert ports + more + [port] == ports + (more + [port]);
        more := more + [port];
        l2 := Active(w);
      }
      WordDone(w, l1);
    }

    lemma WordDone(w: nat, l1: set<nat>)
      requires |Active(w)| == 0
      ensures Due(l1 + {w}) == Due(l1)
    {
      forall p
        ensures p in Due(l1 + {w}) <==> p in Due(l1)
      {
        assert p !in Active(w);
      }
    }

    /** do_hypervisor_callback, undisturbed: every due event is delivered once,
        in increasing order of ports, and no other. */
    method DoHypervisorCallback() returns (ghost ports: seq<nat>)
      modifies `pending, `sel, `upcall, `handled
      ensures !upcall && sel == {} && pending == old(pending) - old(Due(sel))
      ensures handled == old(handled) + ports && Increasing(ports)
      ensures forall p :: p in ports <==> p in old(Due(sel))
    {
      ports := [];
      upcall := false;
      var l1 := sel;
      sel := {};
      while l1 != {}
        invariant l1 <= old(sel) && !upcall && sel == {}
        invariant Progress(old(Due(sel)), ports, Due(l1)) && handled == old(handled) + ports
        invariant pending == old(pending) - (old(Due(sel)) - Due(l1))
        decreases l1
      {
        var l1i := Ffs(l1);
        assert l1 - {l1i} + {l1i} == l1;
        l1 := l1 - {l1i};
        var more := DeliverWord(l1i, l1, old(Due(sel)), ports);
        ports := ports + more;
      }
    }
  }
}
