/**
 Grant references in Mini-OS as a machine of atomic steps: threads take
 references (down, then pop with interrupts off), grant access, and give them
 back (clear the flags by compare-and-exchange, push with interrupts off, then
 up), while the hypervisor maps and unmaps what has been granted.
 */
module GrantTable {
  import opened FreeIds

  const RESERVED: nat := 8

  /** The flags of a grant entry. */
  datatype Flags = Flags(permit: bool, readonly: bool, reading: bool, writing: bool)
  {
    predicate InUse() {
      reading || writing
    }
  }

  const NONE := Flags(false, false, false, false)

  /** What has become of a reference. */
  datatype Status =
    | OnList
    | Filling              // taken, the entry not valid yet
    | Granted
    | Ending(seen: Flags)  // gnttab_end_access has read the flags
    | Cleared              // compare-and-exchange done, not pushed yet

  /** The list, the semaphore, how many threads are between down and pop, and
      between push and up, and the state of every reference. */
  datatype State = State(entries: nat, list: seq<nat>, sem: nat, downed: nat, pushed: nat,
                         status: map<nat, Status>, flags: map<nat, Flags>)
  {
    function Refs(): Shape {
      Shape(RESERVED, entries, 0)
    }

    /** Reference r is in state x. */
    predicate Is(r: nat, x: Status) {
      r in status && status[r] == x && r in flags
    }
  }

  datatype Step =
    | Down
    | Pop
    | Fill(r: nat, readonly: bool)   // gnttab_grant_access after get_free_entry
    | EndRead(r: nat)
    | EndTest(r: nat)                // the in-use test and the compare-and-exchange
    | Push(r: nat)
    | Up
    | Map(r: nat, write: bool)       // the hypervisor maps a granted frame
    | Unmap(r: nat)

  predicate Enabled(s: State, step: Step) {
    match step
    case Down => s.sem > 0
    case Pop => s.downed > 0 && |s.list| > 0
    case Fill(r, _) => s.Is(r, Filling)
    case EndRead(r) => s.Is(r, Granted)
    case EndTest(r) => r in s.status && s.status[r].Ending? && r in s.flags
    case Push(r) => s.Is(r, Cleared)
    case Up => s.pushed > 0
    case Map(r, write) => r in s.flags && s.flags[r].permit && (write ==> !s.flags[r].readonly)
    case Unmap(r) => r in s.flags && s.flags[r].InUse()
  }

  /** The BUG_ON tests of get_free_entry and gnttab_end_access do not fire. */
  predicate NoBug(s: State, step: Step) {
    match step
    case Pop => |s.list| > 0 && s.Refs().IsId(s.list[0]) && s.list[0] < |s.list|
    case EndRead(r) => s.Refs().IsId(r)
    case EndTest(r) => s.Refs().IsId(r)
    case Push(r) => s.Refs().IsId(r) && s.Refs().Ok() && |s.list| == s.Refs().Size()
    case _ => true
  }

  function Do(s: State, step: Step): State
    requires Enabled(s, step) && NoBug(s, step)
  {
    match step
    case Down => s.(sem := s.sem - 1, downed := s.downed + 1)
    case Pop =>
      s.(downed := s.downed - 1, list := s.list[0 := s.list[s.list[0]]], status := s.status[s.list[0] := Filling])
    case Fill(r, readonly) =>
      s.(flags := s.flags[r := Flags(true, readonly, false, false)], status := s.status[r := Granted])
    case EndRead(r) => s.(status := s.status[r := Ending(s.flags[r])])
    case EndTest(r) =>
      var seen := s.status[r].seen;
      if seen.InUse() then s.(status := s.status[r := Granted])
      else if s.flags[r] == seen then s.(flags := s.flags[r := NONE], status := s.status[r := Cleared])
      else s.(status := s.status[r := Ending(s.flags[r])])
    case Push(r) => s.(list := Pushed(s.list, s.Refs(), r), pushed := s.pushed + 1, status := s.status[r := OnList])
    case Up => s.(pushed := s.pushed - 1, sem := s.sem + 1)
    case Map(r, write) =>
      s.(flags := s.flags[r := s.flags[r].(reading := true, writing := s.flags[r].writing || write)])
    case Unmap(r) => s.(flags := s.flags[r := s.flags[r].(reading := false, writing := false)])
  }

  // ----- what every step keeps

  /** The links visit the references on the list, as many as the semaphore and
      the threads on their way account for; and a reference gives access only
      while it is granted. */
  ghost predicate Good(s: State, free: seq<nat>) {
    && Chain(s.list, s.Refs(), free) && |free| == s.sem + s.downed + s.pushed
    && (forall r :: r in s.status <==> s.Refs().IsId(r)) && (forall r :: r in s.flags <==> s.Refs().IsId(r))
    && (forall r :: r in free <==> r in s.status && s.status[r] == OnList)
    && (forall r :: r in s.status ==> Guarded(s, r))
  }

  /** A reference that is not granted gives no access and is not in use. */
  ghost predicate Guarded(s: State, r: nat)
    requires r in s.status
  {
    r in s.flags && (s.status[r] in {OnList, Filling, Cleared} ==> s.flags[r] == NONE)
  }

  ghost predicate Inv(s: State) {
    exists free :: Good(s, free)
  }

  lemma PopKeeps(s: State, free: seq<nat>)
    requires Good(s, free) && Enabled(s, Pop)
    ensures NoBug(s, Pop) && s.Is(s.list[0], OnList) && Good(Do(s, Pop), free[1..])
  {
    PopChain(s.list, s.Refs(), free);
    var m := Do(s, Pop);
    assert m.list == Popped(s.list, s.Refs());
    assert free[0] in free;
    forall r
      ensures r in free[1..] <==> r in m.status && m.status[r] == OnList
    {
      assert r in free <==> r == free[0] || r in free[1..];
    }
  }

  lemma PushKeeps(s: State, free: seq<nat>, r: nat)
    requires Good(s, free) && Enabled(s, Push(r))
    ensures NoBug(s, Push(r)) && Good(Do(s, Push(r)), [r] + free)
  {
    PushChain(s.list, s.Refs(), free, r);
    var m := Do(s, Push(r));
    forall x
      ensures x in [r] + free <==> x in m.status && m.status[x] == OnList
    {
      assert x in [r] + free <==> x == r || x in free;
    }
  }

  /** A reference off the list changes its status or flags, staying off it. */
  lemma RefKeeps(s: State, free: seq<nat>, r: nat, x: Status, f: Flags)
    requires Good(s, free) && r in s.status && s.status[r] != OnList && x != OnList
    requires x in {Filling, Cleared} ==> f == NONE
    ensures Good(s.(status := s.status[r := x], flags := s.flags[r := f]), free)
  {
    var m := s.(status := s.status[r := x], flags := s.flags[r := f]);
    forall q | q in m.status
      ensures Guarded(m, q)
    {
      assert Guarded(s, q);
    }
  }

  /** The steps that change one reference and neither the list nor the counts. */
  lemma RefStepKeeps(s: State, free: seq<nat>, step: Step)
    requires Good(s, free) && Enabled(s, step) && !step.Down? && !step.Pop? && !step.Push? && !step.Up?
    ensures NoBug(s, step) && Good(Do(s, step), free)
  {
    var r := step.r;
    assert Guarded(s, r);
    var m := Do(s, step);
    assert m.status == s.status[r := m.status[r]] && m.flags == s.flags[r := m.flags[r]];
    RefKeeps(s, free, r, m.status[r], m.flags[r]);
    assert m == s.(status := s.status[r := m.status[r]], flags := s.flags[r := m.flags[r]]);
  }

  /** A semaphore operation moves one unit between the counts. */
  lemma CountKeeps(s: State, m: State, free: seq<nat>)
    requires Good(s, free) && m == s.(sem := m.sem, downed := m.downed, pushed := m.pushed)
    requires m.sem + m.downed + m.pushed == s.sem + s.downed + s.pushed
    ensures Good(m, free)
  {
    forall q | q in m.status
      ensures Guarded(m, q)
    {
      assert Guarded(s, q);
    }
  }

  /** Every step keeps the invariant, and none finds a reference out of range. */
  lemma StepKeeps(s: State, step: Step)
    requires Inv(s) && Enabled(s, step)
    ensures NoBug(s, step) && Inv(Do(s, step))
  {
    var free :| Good(s, free);
    match step
    case Pop => PopKeeps(s, free);
    case Push(r) => PushKeeps(s, free, r);
    case Down => CountKeeps(s, Do(s, step), free);
    case Up => CountKeeps(s, Do(s, step), free);
    case _ => RefStepKeeps(s, free, step);
  }

  // ----- runs

  /** After init_gnttab: every reference on the list, all counted by the semaphore. */
  ghost predicate Initial(s: State, free: seq<nat>) {
    && Good(s, free) && s.downed == 0 && s.pushed == 0
    && forall r :: r in s.status ==> s.status[r] == OnList
  }

  /** init_gnttab, for a table of that many entries, sets up such a state. */
  method InitGnttab(entries: nat) returns (s: State, ghost free: seq<nat>)
    requires entries >= RESERVED
    ensures s.entries == entries && Initial(s, free) && s.sem == entries - RESERVED
  {
    var ids := new IdList(Shape(RESERVED, entries, 0));
    free := ids.Init();
    var shape := ids.shape;
    s := State(entries, ids.list[..], shape.high - shape.low, 0, 0,
               ForEach(shape.low, shape.high, OnList), ForEach(shape.low, shape.high, NONE));
    AllFree(s, free);
  }

  lemma AllFree(s: State, free: seq<nat>)
    requires Chain(s.list, s.Refs(), free) && |free| == s.sem && s.downed == 0 && s.pushed == 0
    requires forall r :: r in free <==> s.Refs().IsId(r)
    requires forall r :: r in s.status <==> s.Refs().IsId(r)
    requires forall r :: r in s.flags <==> s.Refs().IsId(r)
    requires forall r :: r in s.status ==> s.status[r] == OnList
    requires forall r :: r in s.flags ==> s.flags[r] == NONE
    ensures Initial(s, free)
  {
    forall r | r in s.status
      ensures Guarded(s, r)
    {
    }
  }

  ghost predicate IsRun(trace: seq<State>, steps: seq<Step>) {
    && |trace| == |steps| + 1 && (exists free :: Initial(trace[0], free))
    && forall i :: 0 <= i < |steps| ==> Moves(trace[i], steps[i], trace[i + 1])
  }

  ghost predicate Moves(s: State, step: Step, m: State) {
    Enabled(s, step) && (NoBug(s, step) ==> m == Do(s, step))
  }

  lemma {:induction false} InvOnRuns(trace: seq<State>, steps: seq<Step>, n: nat)
    requires IsRun(trace, steps) && n < |trace|
    ensures Inv(trace[n])
  {
    if n == 0 {
      var free :| Initial(trace[0], free);
      assert Good(trace[0], free);
    } else {
      InvOnRuns(trace, steps, n - 1);
      assert Moves(trace[n - 1], steps[n - 1], trace[n]);
      StepKeeps(trace[n - 1], steps[n - 1]);
    }
  }

  /** No reference is handed out while in use: what a taker pops is a real
      reference, is on the list, and gives no access.  In particular no stale
      link is followed. */
  lemma TakenOnce(trace: seq<State>, steps: seq<Step>, n: nat)
    requires IsRun(trace, steps) && n < |steps| && steps[n] == Pop
    ensures var s := trace[n];
      && |s.list| > 0 && s.Refs().IsId(s.list[0]) && s.Is(s.list[0], OnList) && s.flags[s.list[0]] == NONE
      && trace[n + 1].Is(s.list[0], Filling)
  {
    InvOnRuns(trace, steps, n);
    var free :| Good(trace[n], free);
    assert Moves(trace[n], Pop, trace[n + 1]);
    PopKeeps(trace[n], free);
    assert Guarded(trace[n], trace[n].list[0]);
  }

  /** Conservation: the references on the list are as many as the semaphore
      count, the takers between down and pop, and the releasers between push
      and up, together; and the links visit exactly them. */
  lemma Conserved(trace: seq<State>, steps: seq<Step>, n: nat) returns (free: seq<nat>)
    requires IsRun(trace, steps) && n < |trace|
    ensures var s := trace[n];
      && Chain(s.list, s.Refs(), free) && |free| == s.sem + s.downed + s.pushed
      && forall r :: r in free <==> r in s.status && s.status[r] == OnList
  {
    InvOnRuns(trace, steps, n);
    free :| Good(trace[n], free);
  }

  /** A frame that is mapped has a reference that is granted, or about to be found in use. */
  lemma MappedIsGranted(trace: seq<State>, steps: seq<Step>, n: nat, r: nat)
    requires IsRun(trace, steps) && n < |trace| && r in trace[n].flags && trace[n].flags[r].InUse()
    ensures r in trace[n].status && (trace[n].status[r] == Granted || trace[n].status[r].Ending?)
  {
    InvOnRuns(trace, steps, n);
    var free :| Good(trace[n], free);
    assert Guarded(trace[n], r);
  }

  // ----- every unit and every reference accounted for

  datatype Kind = Downs | Pops | Pushes | Ups

  predicate OfKind(step: Step, kind: Kind) {
    match kind
    case Downs => step.Down?
    case Pops => step.Pop?
    case Pushes => step.Push?
    case Ups => step.Up?
  }

  /** How many of the first n steps are of a kind. */
  function Tally(steps: seq<Step>, n: nat, kind: Kind): nat
    requires n <= |steps|
  {
    if n == 0 then 0 else Tally(steps, n - 1, kind) + if OfKind(steps[n - 1], kind) then 1 else 0
  }

  /** The step as it is carried out: what is popped is on the list. */
  ghost predicate Carried(s: State, step: Step, m: State) {
    && Enabled(s, step) && NoBug(s, step) && m == Do(s, step)
    && (step.Pop? ==> s.Is(s.list[0], OnList))
  }

  lemma CarriedOut(s: State, step: Step, m: State)
    requires Inv(s) && Moves(s, step, m)
    ensures Carried(s, step, m)
  {
    StepKeeps(s, step);
    if step.Pop? {
      var free :| Good(s, free);
      PopKeeps(s, free);
    }
  }

  lemma CarriedOnRuns(trace: seq<State>, steps: seq<Step>, n: nat)
    requires IsRun(trace, steps) && n < |steps|
    ensures Carried(trace[n], steps[n], trace[n + 1])
  {
    InvOnRuns(trace, steps, n);
    assert Moves(trace[n], steps[n], trace[n + 1]);
    CarriedOut(trace[n], steps[n], trace[n + 1]);
  }

  lemma UnitStep(s: State, step: Step, m: State)
    requires Carried(s, step, m)
    ensures m.sem + (if step.Down? then 1 else 0) == s.sem + if step.Up? then 1 else 0
    ensures m.downed + (if step.Pop? then 1 else 0) == s.downed + if step.Down? then 1 else 0
    ensures m.pushed + (if step.Up? then 1 else 0) == s.pushed + if step.Push? then 1 else 0
  {
  }

  /** Each down takes a unit of the semaphore, each up gives one back, and the
      threads in between are those that have yet to pop, and to up. */
  lemma {:induction false} UnitsAccounted(trace: seq<State>, steps: seq<Step>, n: nat)
    requires IsRun(trace, steps) && n < |trace|
    ensures trace[n].sem + Tally(steps, n, Downs) == trace[0].sem + Tally(steps, n, Ups)
    ensures trace[n].downed + Tally(steps, n, Pops) == Tally(steps, n, Downs)
    ensures trace[n].pushed + Tally(steps, n, Ups) == Tally(steps, n, Pushes)
  {
    if n > 0 {
      UnitsAccounted(trace, steps, n - 1);
      CarriedOnRuns(trace, steps, n - 1);
      UnitStep(trace[n - 1], steps[n - 1], trace[n]);
    }
  }

  function Free(s: State, r: nat): nat {
    if r in s.status && s.status[r] == OnList then 1 else 0
  }

  predicate PopsRef(s: State, step: Step, r: nat) {
    step == Pop && |s.list| > 0 && s.list[0] == r
  }

  ghost function TimesTaken(trace: seq<State>, steps: seq<Step>, n: nat, r: nat): nat
    requires n <= |steps| < |trace|
  {
    if n == 0 then 0 else TimesTaken(trace, steps, n - 1, r) + if PopsRef(trace[n - 1], steps[n - 1], r) then 1 else 0
  }

  function TimesGiven(steps: seq<Step>, n: nat, r: nat): nat
    requires n <= |steps|
  {
    if n == 0 then 0 else TimesGiven(steps, n - 1, r) + if steps[n - 1] == Push(r) then 1 else 0
  }

  lemma RefStep(s: State, step: Step, m: State, r: nat)
    requires Carried(s, step, m)
    ensures m.entries == s.entries
    ensures Free(m, r) + (if PopsRef(s, step, r) then 1 else 0) == Free(s, r) + if step == Push(r) then 1 else 0
  {
  }

  /** A reference has been taken once more than it has been given back, or it is on the list. */
  lemma {:induction false} RefAccounted(trace: seq<State>, steps: seq<Step>, n: nat, r: nat)
    requires IsRun(trace, steps) && n < |trace| && trace[0].Refs().IsId(r)
    ensures trace[n].entries == trace[0].entries
    ensures Free(trace[n], r) + TimesTaken(trace, steps, n, r) == 1 + TimesGiven(steps, n, r)
  {
    if n == 0 {
      var free :| Initial(trace[0], free);
    } else {
      RefAccounted(trace, steps, n - 1, r);
      CarriedOnRuns(trace, steps, n - 1);
      RefStep(trace[n - 1], steps[n - 1], trace[n], r);
    }
  }

  // ----- what a grant allows

  /** Access is permitted, to write only if the grant said so. */
  ghost predicate GrantedAs(s: State, r: nat, readonly: bool) {
    && r in s.status && (s.status[r] == Granted || s.status[r].Ending?)
    && r in s.flags && s.flags[r].permit && s.flags[r].readonly == readonly && (readonly ==> !s.flags[r].writing)
  }

  /** The step is gnttab_end_access clearing the flags of r, which it has found not in use. */
  ghost predicate Clears(s: State, step: Step, r: nat) {
    && step == EndTest(r) && r in s.status && s.status[r].Ending? && r in s.flags
    && !s.status[r].seen.InUse() && s.flags[r] == s.status[r].seen
  }

  lemma GrantStep(s: State, step: Step, m: State, r: nat, readonly: bool)
    requires Carried(s, step, m) && GrantedAs(s, r, readonly) && !Clears(s, step, r)
    ensures GrantedAs(m, r, readonly)
  {
  }

  lemma GrantBegins(s: State, m: State, r: nat, readonly: bool)
    requires Carried(s, Fill(r, readonly), m)
    ensures GrantedAs(m, r, readonly)
  {
  }

  /** A grant lasts, as it was given, until gnttab_end_access clears it: the
      hypervisor may map the frame, but writable only if the grant allows it. */
  lemma {:induction false} GrantLasts(trace: seq<State>, steps: seq<Step>, i: nat, n: nat, r: nat, readonly: bool)
    requires IsRun(trace, steps) && i < n < |trace| && steps[i] == Fill(r, readonly)
    requires forall k :: i < k < n ==> !Clears(trace[k], steps[k], r)
    ensures GrantedAs(trace[n], r, readonly)
  {
    CarriedOnRuns(trace, steps, n - 1);
    if n > i + 1 {
      GrantLasts(trace, steps, i, n - 1, r, readonly);
      GrantStep(trace[n - 1], steps[n - 1], trace[n], r, readonly);
    } else {
      GrantBegins(trace[i], trace[n], r, readonly);
    }
  }

  ghost predicate IsClear(s: State, r: nat) {
    r in s.flags && s.flags[r] == NONE && r in s.status && !s.status[r].Granted? && !s.status[r].Ending?
  }

  lemma ClearStep(s: State, step: Step, m: State, r: nat)
    requires Carried(s, step, m) && IsClear(s, r) && !(step.Fill? && step.r == r)
    ensures IsClear(m, r)
  {
  }

  lemma ClearBegins(s: State, step: Step, m: State, r: nat)
    requires Carried(s, step, m) && Clears(s, step, r)
    ensures IsClear(m, r)
  {
  }

  /** Once cleared, the reference allows nothing until it is granted again. */
  lemma {:induction false} ClearLasts(trace: seq<State>, steps: seq<Step>, i: nat, n: nat, r: nat)
    requires IsRun(trace, steps) && i < n < |trace| && Clears(trace[i], steps[i], r)
    requires forall k :: i < k < n ==> !(steps[k].Fill? && steps[k].r == r)
    ensures IsClear(trace[n], r)
  {
    CarriedOnRuns(trace, steps, n - 1);
    if n > i + 1 {
      ClearLasts(trace, steps, i, n - 1, r);
      ClearStep(trace[n - 1], steps[n - 1], trace[n], r);
    } else {
      ClearBegins(trace[i], steps[i], trace[n], r);
    }
  }

  /** What the hypervisor maps for writing was granted for writing. */
  lemma MappedForWriting(trace: seq<State>, steps: seq<Step>, i: nat, n: nat, r: nat, readonly: bool)
    requires IsRun(trace, steps) && i < n < |steps| && steps[i] == Fill(r, readonly) && steps[n] == Map(r, true)
    requires forall k :: i < k < n ==> !(steps[k].Fill? && steps[k].r == r)
    ensures !readonly
  {
    assert Moves(trace[n], steps[n], trace[n + 1]);
    if forall k :: i < k < n ==> !Clears(trace[k], steps[k], r) {
      GrantLasts(trace, steps, i, n, r, readonly);
    } else {
      var k :| i < k < n && Clears(trace[k], steps[k], r);
      ClearLasts(trace, steps, k, n, r);
      assert false;
    }
  }

  // ----- what the other end and gnttab_end_access do

  /** The frame is in use, for writing if so asked. */
  ghost predicate Mapped(s: State, r: nat, write: bool) {
    r in s.flags && s.flags[r].InUse() && (write ==> s.flags[r].writing)
  }

  lemma MappedStep(s: State, step: Step, m: State, r: nat, write: bool)
    requires Carried(s, step, m) && step != Unmap(r)
    requires step == Map(r, write) || (Mapped(s, r, write) && r in s.status && s.status[r] != Filling)
    ensures Mapped(m, r, write)
  {
  }

  /** The frame is in use from when it is mapped until it is unmapped:
      gnttab_end_access does not clear it away. */
  lemma {:induction false} MapLasts(trace: seq<State>, steps: seq<Step>, i: nat, n: nat, r: nat, write: bool)
    requires IsRun(trace, steps) && i < n < |trace| && steps[i] == Map(r, write)
    requires forall k :: i < k < n ==> steps[k] != Unmap(r)
    ensures Mapped(trace[n], r, write)
  {
    CarriedOnRuns(trace, steps, n - 1);
    if n > i + 1 {
      MapLasts(trace, steps, i, n - 1, r, write);
      MappedIsGranted(trace, steps, n - 1, r);
    }
    MappedStep(trace[n - 1], steps[n - 1], trace[n], r, write);
  }

  lemma UnmappedStep(s: State, step: Step, m: State, r: nat)
    requires Carried(s, step, m) && !(step.Map? && step.r == r)
    requires step == Unmap(r) || (r in s.flags && !s.flags[r].InUse())
    ensures r in m.flags && !m.flags[r].InUse()
  {
  }

  /** And it is not in use from then until it is mapped again. */
  lemma {:induction false} UnmapLasts(trace: seq<State>, steps: seq<Step>, i: nat, n: nat, r: nat)
    requires IsRun(trace, steps) && i < n < |trace| && steps[i] == Unmap(r)
    requires forall k :: i < k < n ==> !(steps[k].Map? && steps[k].r == r)
    ensures r in trace[n].flags && !trace[n].flags[r].InUse()
  {
    CarriedOnRuns(trace, steps, n - 1);
    if n > i + 1 {
      UnmapLasts(trace, steps, i, n - 1, r);
    }
    UnmappedStep(trace[n - 1], steps[n - 1], trace[n], r);
  }

  lemma EndingStep(s: State, step: Step, m: State, r: nat, seen: Flags)
    requires Carried(s, step, m) && step != EndTest(r) && s.Is(r, Ending(seen))
    ensures m.Is(r, Ending(seen))
  {
  }

  /** What gnttab_end_access has read is what its test goes by. */
  lemma {:induction false} EndReadLasts(trace: seq<State>, steps: seq<Step>, i: nat, n: nat, r: nat)
    requires IsRun(trace, steps) && i < n < |trace| && steps[i] == EndRead(r)
    requires forall k :: i < k < n ==> steps[k] != EndTest(r)
    ensures r in trace[i].flags && trace[n].Is(r, Ending(trace[i].flags[r]))
  {
    CarriedOnRuns(trace, steps, i);
    if n > i + 1 {
      CarriedOnRuns(trace, steps, n - 1);
      EndReadLasts(trace, steps, i, n - 1, r);
      EndingStep(trace[n - 1], steps[n - 1], trace[n], r, trace[i].flags[r]);
    }
  }

  /** gnttab_end_access leaves a reference granted if it finds it in use; else
      it clears it, if nothing has changed meanwhile, or tries again. */
  lemma EndDecides(trace: seq<State>, steps: seq<Step>, i: nat, n: nat, r: nat)
    requires IsRun(trace, steps) && i < n < |steps| && steps[i] == EndRead(r) && steps[n] == EndTest(r)
    requires forall k :: i < k < n ==> steps[k] != EndTest(r)
    ensures r in trace[i].flags && r in trace[n].flags
    ensures var seen, m := trace[i].flags[r], trace[n + 1];
      if seen.InUse() then m.Is(r, Granted) && m.flags[r] == trace[n].flags[r]
      else if trace[n].flags[r] == seen then m.Is(r, Cleared) && m.flags[r] == NONE
      else m.Is(r, Ending(trace[n].flags[r])) && m.flags[r] == trace[n].flags[r]
  {
    EndReadLasts(trace, steps, i, n, r);
    CarriedOnRuns(trace, steps, n);
  }
}
