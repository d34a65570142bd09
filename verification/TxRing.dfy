/**
 The transmit side of the Mini-OS network frontend as a machine of atomic
 steps.  A sender downs the semaphore, pops an id with interrupts off, reads
 the producer index, may sleep while it gets a grant reference, and then puts
 its request in the slot it read and writes the index plus one; it never looks
 whether there is room.  The backend answers requests in any order; the
 collector pushes the ids of the answers back and ups the semaphore.
 */
module TxRing {
  import opened FreeIds

  /** What has become of an id. */
  datatype Status = OnList | Taken | Sent | Answered

  /** An answer on the ring: to the request with an id, or a null one. */
  datatype Answer = Null | To(id: nat)

  /** A sender between its read of the producer index and its write: the index
      read, which is its slot, and how many writes there had been. */
  datatype Local = Local(slot: nat, at: nat)

  datatype State = State(size: nat, list: seq<nat>, sem: nat, downed: nat, pushed: nat, status: map<nat, Status>,
                         local: map<nat, Local>, reqProd: nat, writes: nat, rspCons: nat, answers: seq<Answer>)
  {
    function Ids(): Shape {
      Shape(0, size, 1)
    }

    /** Ids whose request is on the ring or answered and not collected. */
    ghost function InFlight(): set<nat> {
      set id | id in status && status[id] in {Sent, Answered}
    }

    /** No other sender has written the producer index since id read it. */
    predicate Undisturbed(id: nat) {
      id in local && local[id].at == writes
    }
  }

  datatype Step =
    | Down                // netfront_xmit: down
    | Pop                 // get_id_from_freelist
    | Read(id: nat)       // i = req_prod_pvt, before the grant reference is there
    | Write(id: nat)      // the request goes into slot i, req_prod_pvt = i + 1
    | Reply(a: Answer)    // the backend
    | Collect             // network_tx_buf_gc, one answer
    | Up

  predicate Enabled(s: State, step: Step) {
    match step
    case Down => s.sem > 0
    case Pop => s.downed > 0
    case Read(id) => id in s.status && s.status[id] == Taken && id !in s.local
    case Write(id) => id in s.local
    case Reply(a) => a.To? ==> a.id in s.status && s.status[a.id] == Sent
    case Collect => s.answers != []
    case Up => s.pushed > 0
  }

  /** What the code takes for granted: ids in range, room on the ring for the slot written. */
  predicate Safe(s: State, step: Step) {
    match step
    case Pop => |s.list| == s.Ids().Size() && s.Ids().IsId(s.list[0])
    case Write(id) => id in s.local && s.local[id].slot < s.rspCons + s.size
    case Collect =>
      s.answers != [] && (s.answers[0].To? ==> s.Ids().IsId(s.answers[0].id) && |s.list| == s.Ids().Size())
    case _ => true
  }

  function Do(s: State, step: Step): State
    requires Enabled(s, step) && Safe(s, step)
  {
    match step
    case Down => s.(sem := s.sem - 1, downed := s.downed + 1)
    case Pop => s.(downed := s.downed - 1, list := Popped(s.list, s.Ids()), status := s.status[s.list[0] := Taken])
    case Read(id) => s.(local := s.local[id := Local(s.reqProd, s.writes)])
    case Write(id) =>
      s.(status := s.status[id := Sent], local := s.local - {id}, reqProd := s.local[id].slot + 1,
          writes := s.writes + 1)
    case Reply(Null) => s.(answers := s.answers + [Null])
    case Reply(To(id)) => s.(answers := s.answers + [To(id)], status := s.status[id := Answered])
    case Collect =>
      var m := s.(answers := s.answers[1..], rspCons := s.rspCons + 1);
      if s.answers[0] == Null then m
      else m.(list := Pushed(s.list, s.Ids(), s.answers[0].id), pushed := s.pushed + 1,
              status := s.status[s.answers[0].id := OnList])
    case Up => s.(pushed := s.pushed - 1, sem := s.sem + 1)
  }

  // ----- what every step keeps

  ghost predicate Good(s: State, free: seq<nat>) {
    && Chain(s.list, s.Ids(), free) && |free| == s.sem + s.downed + s.pushed
    && (forall id :: id in s.status <==> s.Ids().IsId(id))
    && (forall id :: id in free <==> id in s.status && s.status[id] == OnList)
    && (forall id :: id in s.status && s.status[id] == Answered <==> To(id) in s.answers)
    && (forall j, k :: 0 <= j < k < |s.answers| && s.answers[j].To? ==> s.answers[j] != s.answers[k])
    && (forall id :: id in s.local ==> id in s.status && s.status[id] == Taken)
    && Room(s)
  }

  /** The producer index, and every index a sender has read, is at most as many
      slots past the answers collected as there are requests in flight. */
  ghost predicate Room(s: State) {
    && s.reqProd <= s.rspCons + |s.InFlight()|
    && forall id :: id in s.local ==> s.local[id].slot <= s.rspCons + |s.InFlight()|
  }

  ghost predicate Inv(s: State) {
    exists free :: Good(s, free)
  }

  lemma {:induction false} CardBelow(a: set<nat>, n: nat)
    requires forall x :: x in a ==> x < n
    ensures |a| <= n
  {
    if n > 0 {
      CardBelow(a - {n - 1}, n - 1);
      assert |a - {n - 1}| >= |a| - 1;
    }
  }

  /** An id in hand leaves room for its request: the ring does not overfill. */
  lemma RoomToSend(s: State, free: seq<nat>, id: nat)
    requires Good(s, free) && id in s.status && s.status[id] == Taken
    ensures s.reqProd < s.rspCons + s.size
    ensures id in s.local ==> s.local[id].slot < s.rspCons + s.size
  {
    CardBelow(s.InFlight() + {id}, s.size);
    assert |s.InFlight() + {id}| == |s.InFlight()| + 1;
  }

  lemma PopKeeps(s: State, free: seq<nat>)
    requires Good(s, free) && Enabled(s, Pop)
    ensures Safe(s, Pop) && s.list[0] in s.status && s.status[s.list[0]] == OnList && Good(Do(s, Pop), free[1..])
  {
    PopChain(s.list, s.Ids(), free);
    var m := Do(s, Pop);
    assert free[0] in free;
    forall id
      ensures id in free[1..] <==> id in m.status && m.status[id] == OnList
    {
      assert id in free <==> id == free[0] || id in free[1..];
    }
    assert m.InFlight() == s.InFlight();
  }

  lemma ReadKeeps(s: State, free: seq<nat>, id: nat)
    requires Good(s, free) && Enabled(s, Read(id))
    ensures Good(Do(s, Read(id)), free)
  {
    assert Do(s, Read(id)).InFlight() == s.InFlight();
  }

  lemma WriteKeeps(s: State, free: seq<nat>, id: nat)
    requires Good(s, free) && Enabled(s, Write(id))
    ensures Safe(s, Write(id)) && Good(Do(s, Write(id)), free)
  {
    RoomToSend(s, free, id);
    var m := Do(s, Write(id));
    assert m.InFlight() == s.InFlight() + {id};
  }

  lemma ReplyKeeps(s: State, free: seq<nat>, a: Answer)
    requires Good(s, free) && Enabled(s, Reply(a))
    ensures Good(Do(s, Reply(a)), free)
  {
    var m := Do(s, Reply(a));
    assert m.InFlight() == s.InFlight();
    assert forall x :: x in m.answers <==> x in s.answers || x == a;
  }

  /** Collecting the answer to id gives the id back; a null answer gives none. */
  lemma CollectKeeps(s: State, free: seq<nat>)
    requires Good(s, free) && Enabled(s, Collect)
    ensures Safe(s, Collect) && Inv(Do(s, Collect))
  {
    var a := s.answers[0];
    assert a in s.answers;
    assert forall x :: x in s.answers <==> x == a || x in s.answers[1..];
    if a == Null {
      var m := Do(s, Collect);
      assert m.InFlight() == s.InFlight();
      assert Good(m, free);
    } else {
      CollectIdKeeps(s, free, a.id);
    }
  }

  lemma CollectIdKeeps(s: State, free: seq<nat>, id: nat)
    requires Good(s, free) && s.answers != [] && s.answers[0] == To(id)
    ensures Safe(s, Collect) && Good(Do(s, Collect), [id] + free)
  {
    var a := s.answers[0];
    assert a in s.answers;
    PushChain(s.list, s.Ids(), free, id);
    var m := Do(s, Collect);
    assert To(id) !in m.answers;
    forall x
      ensures x in [id] + free <==> x in m.status && m.status[x] == OnList
      ensures x in m.status && m.status[x] == Answered <==> To(x) in m.answers
    {
      assert To(x) in s.answers <==> To(x) == a || To(x) in m.answers;
    }
    assert m.InFlight() == s.InFlight() - {id};
  }

  /** Every step keeps the invariant, and every step is safe. */
  lemma StepKeeps(s: State, step: Step)
    requires Inv(s) && Enabled(s, step)
    ensures Safe(s, step) && Inv(Do(s, step))
  {
    var free :| Good(s, free);
    match step
    case Down => assert Good(Do(s, step), free) by { assert Do(s, step).InFlight() == s.InFlight(); }
    case Up => assert Good(Do(s, step), free) by { assert Do(s, step).InFlight() == s.InFlight(); }
    case Pop => PopKeeps(s, free);
    case Read(id) => ReadKeeps(s, free, id);
    case Write(id) => WriteKeeps(s, free, id);
    case Reply(a) => ReplyKeeps(s, free, a);
    case Collect => CollectKeeps(s, free);
  }

  // ----- runs

  /** The transmit part of init_netfront, for a ring of that size. */
  method InitTx(size: nat) returns (s: State, ghost free: seq<nat>)
    ensures s.size == s.sem == size && s.downed == s.pushed == 0 && s.answers == [] && s.local == map[]
    ensures Good(s, free)
  {
    var ids := new IdList(Shape(0, size, 1));
    free := ids.Init();
    s := State(size, ids.list[..], size, 0, 0, ForEach(0, size, OnList), map[], 0, 0, 0, []);
  }

  /** A run, from a state in which no sender is between its read and its write. */
  ghost predicate IsRun(trace: seq<State>, steps: seq<Step>) {
    && |trace| == |steps| + 1 && Inv(trace[0]) && trace[0].local == map[]
    && forall i :: 0 <= i < |steps| ==> Moves(trace[i], steps[i], trace[i + 1])
  }

  ghost predicate Moves(s: State, step: Step, m: State) {
    Enabled(s, step) && (Safe(s, step) ==> m == Do(s, step))
  }

  lemma {:induction false} InvOnRuns(trace: seq<State>, steps: seq<Step>, n: nat)
    requires IsRun(trace, steps) && n < |trace|
    ensures Inv(trace[n])
  {
    if n > 0 {
      InvOnRuns(trace, steps, n - 1);
      assert Moves(trace[n - 1], steps[n - 1], trace[n]);
      StepKeeps(trace[n - 1], steps[n - 1]);
    }
  }

  /** The ring never overfills, although netfront_xmit does not check it: the
      slot written is less than the ring size past the answers collected. */
  lemma NeverOverfills(trace: seq<State>, steps: seq<Step>, n: nat)
    requires IsRun(trace, steps) && n < |steps| && steps[n].Write?
    ensures steps[n].id in trace[n].local && trace[n].local[steps[n].id].slot < trace[n].rspCons + trace[n].size
    ensures trace[n + 1].reqProd <= trace[n].rspCons + trace[n].size
  {
    InvOnRuns(trace, steps, n);
    assert Moves(trace[n], steps[n], trace[n + 1]);
    StepKeeps(trace[n], steps[n]);
  }

  /** No id is handed out twice: what a sender pops is on the list. */
  lemma TakenOnce(trace: seq<State>, steps: seq<Step>, n: nat)
    requires IsRun(trace, steps) && n < |steps| && steps[n] == Pop
    ensures var s := trace[n];
      |s.list| > 0 && s.Ids().IsId(s.list[0]) && s.list[0] in s.status && s.status[s.list[0]] == OnList
  {
    InvOnRuns(trace, steps, n);
    assert Moves(trace[n], steps[n], trace[n + 1]);
    var free :| Good(trace[n], free);
    PopKeeps(trace[n], free);
  }

  /** Conservation, as for grant references. */
  lemma Conserved(trace: seq<State>, steps: seq<Step>, n: nat) returns (free: seq<nat>)
    requires IsRun(trace, steps) && n < |trace|
    ensures var s := trace[n];
      && Chain(s.list, s.Ids(), free) && |free| == s.sem + s.downed + s.pushed
      && forall id :: id in free <==> id in s.status && s.status[id] == OnList
  {
    InvOnRuns(trace, steps, n);
    free :| Good(trace[n], free);
  }

  // ----- every unit and every id accounted for

  datatype Kind = Downs | Pops | Returns | Ups | Collections | Writes

  /** The step gives an id back. */
  predicate Collects(s: State, step: Step) {
    step == Collect && s.answers != [] && s.answers[0].To?
  }

  predicate OfKind(s: State, step: Step, kind: Kind) {
    match kind
    case Downs => step.Down?
    case Pops => step.Pop?
    case Returns => Collects(s, step)
    case Ups => step.Up?
    case Collections => step.Collect?
    case Writes => step.Write?
  }

  /** How many of the first n steps are of a kind. */
  ghost function Tally(trace: seq<State>, steps: seq<Step>, n: nat, kind: Kind): nat
    requires n <= |steps| < |trace|
  {
    if n == 0 then 0
    else Tally(trace, steps, n - 1, kind) + if OfKind(trace[n - 1], steps[n - 1], kind) then 1 else 0
  }

  /** The step as it is carried out: what is popped is on the list, what is sent
      was taken, and what is collected was answered. */
  ghost predicate Carried(s: State, step: Step, m: State) {
    && Enabled(s, step) && Safe(s, step) && m == Do(s, step)
    && (step.Pop? ==> s.list[0] in s.status && s.status[s.list[0]] == OnList)
    && (step.Write? ==> step.id in s.status && s.status[step.id] == Taken)
    && (Collects(s, step) ==> s.answers[0].id in s.status && s.status[s.answers[0].id] == Answered)
  }

  lemma CarriedOut(s: State, step: Step, m: State)
    requires Inv(s) && Moves(s, step, m)
    ensures Carried(s, step, m)
  {
    StepKeeps(s, step);
    var free :| Good(s, free);
    if step.Pop? {
      PopKeeps(s, free);
    } else if Collects(s, step) {
      assert s.answers[0] in s.answers;
    }
  }

  lemma CarriedOnRuns(trace: seq<State>, steps: seq<Step>, n: nat)
    requires IsRun(trace, steps) && n < |steps|
    ensures Carried(trace[n], steps[n], trace[n + 1])
  {
    InvOnRuns(trace, steps, n);
    assert Moves(trace[n], steps[n], trace[n + 1]);
    CarriedOut(trace[n], steps[n], trace[n + 1]);
  }

  lemma UnitStep(s: State, step: Step, m: State)
    requires Carried(s, step, m)
    ensures m.sem + (if step.Down? then 1 else 0) == s.sem + if step.Up? then 1 else 0
    ensures m.downed + (if step.Pop? then 1 else 0) == s.downed + if step.Down? then 1 else 0
    ensures m.pushed + (if step.Up? then 1 else 0) == s.pushed + if Collects(s, step) then 1 else 0
  {
  }

  lemma RingStep(s: State, step: Step, m: State)
    requires Carried(s, step, m)
    ensures m.rspCons == s.rspCons + (if step.Collect? then 1 else 0)
    ensures m.writes == s.writes + if step.Write? then 1 else 0
  {
  }

  /** Each down takes a unit of the semaphore, each up gives one back, and the
      threads in between are those that have yet to pop, and to up. */
  lemma {:induction false} UnitsAccounted(trace: seq<State>, steps: seq<Step>, n: nat)
    requires IsRun(trace, steps) && n < |trace|
    ensures trace[n].sem + Tally(trace, steps, n, Downs) == trace[0].sem + Tally(trace, steps, n, Ups)
    ensures trace[n].downed + Tally(trace, steps, n, Pops) == trace[0].downed + Tally(trace, steps, n, Downs)
    ensures trace[n].pushed + Tally(trace, steps, n, Ups) == trace[0].pushed + Tally(trace, steps, n, Returns)
  {
    if n > 0 {
      UnitsAccounted(trace, steps, n - 1);
      CarriedOnRuns(trace, steps, n - 1);
      UnitStep(trace[n - 1], steps[n - 1], trace[n]);
    }
  }

  /** The consumer index counts the answers collected. */
  lemma {:induction false} RingAccounted(trace: seq<State>, steps: seq<Step>, n: nat)
    requires IsRun(trace, steps) && n < |trace|
    ensures trace[n].rspCons == trace[0].rspCons + Tally(trace, steps, n, Collections)
    ensures trace[n].writes == trace[0].writes + Tally(trace, steps, n, Writes)
  {
    if n > 0 {
      RingAccounted(trace, steps, n - 1);
      CarriedOnRuns(trace, steps, n - 1);
      RingStep(trace[n - 1], steps[n - 1], trace[n]);
    }
  }

  function Free(s: State, id: nat): nat {
    if id in s.status && s.status[id] == OnList then 1 else 0
  }

  predicate Takes(s: State, step: Step, id: nat) {
    step == Pop && |s.list| > 0 && s.list[0] == id
  }

  predicate Gives(s: State, step: Step, id: nat) {
    step == Collect && s.answers != [] && s.answers[0] == To(id)
  }

  ghost function TimesTaken(trace: seq<State>, steps: seq<Step>, n: nat, id: nat): nat
    requires n <= |steps| < |trace|
  {
    if n == 0 then 0 else TimesTaken(trace, steps, n - 1, id) + if Takes(trace[n - 1], steps[n - 1], id) then 1 else 0
  }

  ghost function TimesGiven(trace: seq<State>, steps: seq<Step>, n: nat, id: nat): nat
    requires n <= |steps| < |trace|
  {
    if n == 0 then 0 else TimesGiven(trace, steps, n - 1, id) + if Gives(trace[n - 1], steps[n - 1], id) then 1 else 0
  }

  lemma IdStep(s: State, step: Step, m: State, id: nat)
    requires Carried(s, step, m)
    ensures m.size == s.size
    ensures Free(m, id) + (if Takes(s, step, id) then 1 else 0) == Free(s, id) + if Gives(s, step, id) then 1 else 0
  {
  }

  /** An id is on the list as often as it has been given back and not taken again. */
  lemma {:induction false} IdAccounted(trace: seq<State>, steps: seq<Step>, n: nat, id: nat)
    requires IsRun(trace, steps) && n < |trace| && trace[0].Ids().IsId(id)
    ensures trace[n].size == trace[0].size
    ensures Free(trace[n], id) + TimesTaken(trace, steps, n, id) == Free(trace[0], id) + TimesGiven(trace, steps, n, id)
  {
    if n > 0 {
      IdAccounted(trace, steps, n - 1, id);
      CarriedOnRuns(trace, steps, n - 1);
      IdStep(trace[n - 1], steps[n - 1], trace[n], id);
    }
  }

  // ----- slots of their own

  /** Step n, if it is a write, moves the producer index forward by one. */
  ghost predicate Advances(trace: seq<State>, steps: seq<Step>, n: nat)
    requires |trace| == |steps| + 1 && n < |steps|
  {
    steps[n].Write? ==> trace[n + 1].reqProd == trace[n].reqProd + 1
  }

  /** Step n, if it is a write, comes with no other write since the sender's read. */
  ghost predicate InTurn(trace: seq<State>, steps: seq<Step>, n: nat)
    requires |trace| == |steps| + 1 && n < |steps|
  {
    steps[n].Write? ==> trace[n].Undisturbed(steps[n].id)
  }

  /** While every write moves the index forward, it counts the writes. */
  ghost predicate Counts(first: State, s: State) {
    && s.reqProd + first.writes == first.reqProd + s.writes
    && forall id :: id in s.local ==> s.local[id].slot + first.writes == first.reqProd + s.local[id].at
  }

  lemma CountsStep(first: State, s: State, step: Step)
    requires Counts(first, s) && Enabled(s, step) && Safe(s, step)
    requires step.Write? ==> Do(s, step).reqProd == s.reqProd + 1
    ensures Counts(first, Do(s, step)) && Do(s, step).writes >= s.writes
  {
  }

  /** Then a write moves it forward if and only if it comes in turn. */
  lemma TurnStep(first: State, s: State, id: nat)
    requires Counts(first, s) && Enabled(s, Write(id)) && Safe(s, Write(id))
    ensures Do(s, Write(id)).reqProd == s.reqProd + 1 <==> s.Undisturbed(id)
  {
  }

  lemma RunStep(trace: seq<State>, steps: seq<Step>, n: nat)
    requires IsRun(trace, steps) && n < |steps|
    ensures Enabled(trace[n], steps[n]) && Safe(trace[n], steps[n]) && trace[n + 1] == Do(trace[n], steps[n])
  {
    InvOnRuns(trace, steps, n);
    assert Moves(trace[n], steps[n], trace[n + 1]);
    StepKeeps(trace[n], steps[n]);
  }

  ghost predicate AllAdvance(trace: seq<State>, steps: seq<Step>, n: nat)
    requires |trace| == |steps| + 1 && n <= |steps|
  {
    forall m :: 0 <= m < n ==> Advances(trace, steps, m)
  }

  ghost predicate AllInTurn(trace: seq<State>, steps: seq<Step>, n: nat)
    requires |trace| == |steps| + 1 && n <= |steps|
  {
    forall m :: 0 <= m < n ==> InTurn(trace, steps, m)
  }

  lemma {:induction false} AdvancingCounts(trace: seq<State>, steps: seq<Step>, n: nat)
    requires IsRun(trace, steps) && n <= |steps| && AllAdvance(trace, steps, n)
    ensures Counts(trace[0], trace[n])
  {
    if n > 0 {
      AdvancingCounts(trace, steps, n - 1);
      assert Advances(trace, steps, n - 1);
      RunStep(trace, steps, n - 1);
      CountsStep(trace[0], trace[n - 1], steps[n - 1]);
    }
  }

  /** Every write moves the index forward if and only if no sender writes
      between the read and the write of another. */
  lemma {:induction false} AdvanceIff(trace: seq<State>, steps: seq<Step>, n: nat)
    requires IsRun(trace, steps) && n <= |steps|
    ensures AllAdvance(trace, steps, n) <==> AllInTurn(trace, steps, n)
  {
    if n > 0 {
      AdvanceIff(trace, steps, n - 1);
      if AllAdvance(trace, steps, n - 1) {
        AdvancingCounts(trace, steps, n - 1);
        RunStep(trace, steps, n - 1);
        if steps[n - 1].Write? {
          TurnStep(trace[0], trace[n - 1], steps[n - 1].id);
        }
        assert Advances(trace, steps, n - 1) <==> InTurn(trace, steps, n - 1);
      } else {
        assert !AllAdvance(trace, steps, n) && !AllInTurn(trace, steps, n);
      }
    }
  }

  lemma {:induction false} WritesGrow(trace: seq<State>, steps: seq<Step>, j: nat, k: nat)
    requires IsRun(trace, steps) && j < k <= |steps|
    ensures trace[k].writes >= trace[j].writes + (if steps[j].Write? then 1 else 0)
    decreases k
  {
    RunStep(trace, steps, k - 1);
    if j < k - 1 {
      WritesGrow(trace, steps, j, k - 1);
    }
  }

  /** The slot that step n, a write, puts its request into. */
  ghost function SlotOf(trace: seq<State>, steps: seq<Step>, n: nat): nat
    requires IsRun(trace, steps) && n < |steps| && steps[n].Write?
  {
    assert Moves(trace[n], steps[n], trace[n + 1]);
    trace[n].local[steps[n].id].slot
  }

  /** The writes among the first n steps put their requests into different slots. */
  ghost predicate OwnSlots(trace: seq<State>, steps: seq<Step>, n: nat)
    requires IsRun(trace, steps) && n <= |steps|
  {
    forall j, k :: 0 <= j < k < n && steps[j].Write? && steps[k].Write? ==>
      SlotOf(trace, steps, j) != SlotOf(trace, steps, k)
  }

  /** Writes that come in turn go to different slots. */
  lemma InTurnSlots(trace: seq<State>, steps: seq<Step>, n: nat, j: nat, k: nat)
    requires IsRun(trace, steps) && j < k < n <= |steps| && steps[j].Write? && steps[k].Write?
    requires AllInTurn(trace, steps, n)
    ensures SlotOf(trace, steps, j) < SlotOf(trace, steps, k)
  {
    AdvanceIff(trace, steps, j);
    AdvanceIff(trace, steps, k);
    assert InTurn(trace, steps, j) && InTurn(trace, steps, k);
    AdvancingCounts(trace, steps, j);
    AdvancingCounts(trace, steps, k);
    WritesGrow(trace, steps, j, k);
  }

  /** A sender's read comes between the start of the run and now. */
  lemma {:induction false} ReadsWithin(trace: seq<State>, steps: seq<Step>, n: nat)
    requires IsRun(trace, steps) && n <= |steps|
    ensures trace[0].writes <= trace[n].writes
    ensures forall id :: id in trace[n].local ==> trace[0].writes <= trace[n].local[id].at <= trace[n].writes
  {
    if n > 0 {
      ReadsWithin(trace, steps, n - 1);
      RunStep(trace, steps, n - 1);
    }
  }

  /** Each number of writes that the run has passed was there when some sender wrote. */
  lemma {:induction false} WriteNumbered(trace: seq<State>, steps: seq<Step>, n: nat, w: nat) returns (j: nat)
    requires IsRun(trace, steps) && n <= |steps| && trace[0].writes <= w < trace[n].writes
    ensures j < n && steps[j].Write? && trace[j].writes == w
  {
    RunStep(trace, steps, n - 1);
    if w < trace[n - 1].writes {
      j := WriteNumbered(trace, steps, n - 1, w);
    } else {
      j := n - 1;
    }
  }

  /** The first write that is not in turn goes to a slot already used. */
  lemma SharedSlot(trace: seq<State>, steps: seq<Step>, n: nat) returns (j: nat)
    requires IsRun(trace, steps) && n < |steps| && AllInTurn(trace, steps, n) && !InTurn(trace, steps, n)
    ensures j < n && steps[j].Write? && SlotOf(trace, steps, j) == SlotOf(trace, steps, n)
  {
    RunStep(trace, steps, n);
    ReadsWithin(trace, steps, n);
    j := WriteNumbered(trace, steps, n, trace[n].local[steps[n].id].at);
    RunStep(trace, steps, j);
    AdvanceIff(trace, steps, n);
    AdvancingCounts(trace, steps, n);
    AdvancingCounts(trace, steps, j);
    assert InTurn(trace, steps, j);
  }

  lemma {:induction false} FirstOutOfTurn(trace: seq<State>, steps: seq<Step>, n: nat) returns (m: nat)
    requires |trace| == |steps| + 1 && n <= |steps| && !AllInTurn(trace, steps, n)
    ensures m < n && AllInTurn(trace, steps, m) && !InTurn(trace, steps, m)
  {
    if AllInTurn(trace, steps, n - 1) {
      m := n - 1;
    } else {
      m := FirstOutOfTurn(trace, steps, n - 1);
    }
  }

  /** Every request has a slot of its own if and only if no sender writes
      between the read and the write of another. */
  lemma OwnSlotsIff(trace: seq<State>, steps: seq<Step>, n: nat)
    requires IsRun(trace, steps) && n <= |steps|
    ensures OwnSlots(trace, steps, n) <==> AllInTurn(trace, steps, n)
  {
    if AllInTurn(trace, steps, n) {
      forall j, k | 0 <= j < k < n && steps[j].Write? && steps[k].Write?
        ensures SlotOf(trace, steps, j) != SlotOf(trace, steps, k)
      {
        InTurnSlots(trace, steps, n, j, k);
      }
    } else {
      var m := FirstOutOfTurn(trace, steps, n);
      var j := SharedSlot(trace, steps, m);
      assert SlotOf(trace, steps, j) == SlotOf(trace, steps, m);
    }
  }

  // ----- senders that overtake one another

  /** What a sender's read and its write change. */
  ghost predicate DidRead(s: State, id: nat, m: State) {
    m == s.(local := s.local[id := Local(s.reqProd, s.writes)])
  }

  ghost predicate DidWrite(s: State, id: nat, m: State) {
    && id in s.local && m.local == s.local - {id} && m.status == s.status[id := Sent]
    && m.reqProd == s.local[id].slot + 1 && m.writes == s.writes + 1
  }

  /** A run goes on with any step that is enabled. */
  lemma GoesOn(t: seq<State>, steps: seq<Step>, step: Step) returns (m: State)
    requires IsRun(t, steps) && Enabled(t[|steps|], step)
    ensures IsRun(t + [m], steps + [step])
    ensures step.Read? ==> DidRead(t[|steps|], step.id, m)
    ensures step.Write? ==> DidWrite(t[|steps|], step.id, m)
  {
    InvOnRuns(t, steps, |steps|);
    StepKeeps(t[|steps|], step);
    m := Do(t[|steps|], step);
    var u, more := t + [m], steps + [step];
    forall i | 0 <= i < |more|
      ensures Moves(u[i], more[i], u[i + 1])
    {
      assert i < |steps| ==> Moves(t[i], steps[i], t[i + 1]);
    }
  }

  /** Two senders read, one of them writes, and two more read. */
  lemma Overtaken(s: State, a: nat, b: nat, c: nat, d: nat) returns (t: seq<State>)
    requires Inv(s) && s.local == map[] && a != b && a != c && a != d && b != c && b != d && c != d
    requires forall id :: id in {a, b, c, d} ==> id in s.status && s.status[id] == Taken
    ensures IsRun(t, [Read(c), Read(d), Write(d), Read(a), Read(b)]) && t[0] == s
    ensures t[2].local == map[c := Local(s.reqProd, s.writes), d := Local(s.reqProd, s.writes)]
    ensures t[5].reqProd == s.reqProd + 1 && t[5].writes == s.writes + 1
    ensures var later := Local(s.reqProd + 1, s.writes + 1);
      t[5].local == map[c := Local(s.reqProd, s.writes), a := later, b := later]
  {
    var steps: seq<Step> := [];
    var s1 := GoesOn([s], steps, Read(c));
    t, steps := [s] + [s1], steps + [Read(c)];
    var s2 := GoesOn(t, steps, Read(d));
    t, steps := t + [s2], steps + [Read(d)];
    var s3 := GoesOn(t, steps, Write(d));
    t, steps := t + [s3], steps + [Write(d)];
    var s4 := GoesOn(t, steps, Read(a));
    t, steps := t + [s4], steps + [Read(a)];
    var s5 := GoesOn(t, steps, Read(b));
    t, steps := t + [s5], steps + [Read(b)];
    assert steps == [Read(c), Read(d), Write(d), Read(a), Read(b)];
  }

  /** The index goes backwards, the senders of c and d use one slot and those of
      a and b another, and the last write moves the index forward although it is
      not in turn. */
  lemma Overtakes(s: State, a: nat, b: nat, c: nat, d: nat) returns (t: seq<State>, steps: seq<Step>)
    requires Inv(s) && s.local == map[] && a != b && a != c && a != d && b != c && b != d && c != d
    requires forall id :: id in {a, b, c, d} ==> id in s.status && s.status[id] == Taken
    ensures IsRun(t, steps) && t[0] == s
    ensures steps == [Read(c), Read(d), Write(d), Read(a), Read(b), Write(b), Write(c), Write(a)]
    ensures t[6].reqProd == s.reqProd + 2 && t[7].reqProd == s.reqProd + 1
    ensures d in t[2].local && c in t[6].local && t[2].local[d].slot == t[6].local[c].slot
    ensures b in t[5].local && a in t[7].local && t[5].local[b].slot == t[7].local[a].slot
    ensures Advances(t, steps, 7) && !InTurn(t, steps, 7)
  {
    t := Overtaken(s, a, b, c, d);
    steps := [Read(c), Read(d), Write(d), Read(a), Read(b)];
    var s6 := GoesOn(t, steps, Write(b));
    t, steps := t + [s6], steps + [Write(b)];
    var s7 := GoesOn(t, steps, Write(c));
    t, steps := t + [s7], steps + [Write(c)];
    var s8 := GoesOn(t, steps, Write(a));
    t, steps := t + [s8], steps + [Write(a)];
  }

  /** n senders, each with an id, on a ring of n. */
  lemma Senders(n: nat) returns (s: State)
    ensures Inv(s) && s.local == map[] && s.size == n
    ensures forall id :: 0 <= id < n ==> id in s.status && s.status[id] == Taken
  {
    s := State(n, seq(n + 1, _ => 0), 0, 0, 0, ForEach(0, n, Taken), map[], 0, 0, 0, []);
    assert s.InFlight() == {};
    assert Good(s, []);
  }

  /** Such a run: four senders on a ring of four. */
  lemma FourSenders() returns (t: seq<State>, steps: seq<Step>)
    ensures IsRun(t, steps) && |steps| == 8 && t[0].size == 4 && t[7].reqProd < t[6].reqProd
  {
    var s := Senders(4);
    t, steps := Overtakes(s, 0, 1, 2, 3);
  }
}
