/**
 The Mini-OS round-robin scheduler.  The thread list is searched from its
 head for a thread that is runnable, or whose sleep has expired; it is moved
 to the tail and runs.  If there is none the domain blocks, for no longer than
 the earliest wakeup time.
 */
module Scheduler {
  import opened Collections

  const TEN_SECONDS: nat := 10_000_000_000

  /** The thread list, which threads are runnable, and when sleepers wake (0 for never). */
  datatype State = State(list: seq<nat>, runnable: set<nat>, wakeup: map<nat, nat>)
  {
    function WakeupOf(t: nat): nat {
      if t in wakeup then wakeup[t] else 0
    }

    predicate Expired(t: nat, now: nat) {
      t !in runnable && WakeupOf(t) != 0 && WakeupOf(t) <= now
    }

    predicate Ready(t: nat, now: nat) {
      t in runnable || Expired(t, now)
    }

    /** The place of the first ready thread from i on; past the end if there is none. */
    function FirstReady(now: nat, i: nat): (k: nat)
      requires i <= |list|
      ensures i <= k <= |list| && (k < |list| ==> Ready(list[k], now))
      ensures forall j :: i <= j < k ==> !Ready(list[j], now)
      decreases |list| - i
    {
      if i == |list| || Ready(list[i], now) then i else FirstReady(now, i + 1)
    }

    ghost predicate Distinct() {
      forall i, j :: 0 <= i < j < |list| ==> list[i] != list[j]
    }
  }

  // ----- what each call does to the state

  function Woken(s: State, t: nat): State {
    s.(runnable := s.runnable + {t}, wakeup := s.wakeup[t := 0])
  }

  function ToTail(list: seq<nat>, k: nat): seq<nat>
    requires k < |list|
  {
    list[..k] + list[k + 1..] + [list[k]]
  }

  /** A scheduling decision in favour of the thread at place k. */
  function Chosen(s: State, now: nat, k: nat): State
    requires k < |s.list|
  {
    var m := if s.Expired(s.list[k], now) then Woken(s, s.list[k]) else s;
    m.(list := ToTail(s.list, k))
  }

  /** list without t. */
  function Removed(list: seq<nat>, t: nat): (r: seq<nat>)
    ensures forall x :: x in r <==> x in list && x != t
  {
    if list == [] then []
    else if list[0] == t then Removed(list[1..], t)
    else [list[0]] + Removed(list[1..], t)
  }

  datatype Op =
    | Create(t: nat)
    | Exit(t: nat)
    | Block(t: nat)
    | Wake(t: nat)
    | Sleep(t: nat, until: nat)
    | Schedule(now: nat)

  /** A schedule() call in which no thread is ready blocks and tries again; it
      has then decided nothing, and is not an operation here. */
  predicate Enabled(s: State, op: Op) {
    match op
    case Create(t) => t !in s.list
    case Schedule(now) => s.FirstReady(now, 0) < |s.list|
    case _ => true
  }

  function Apply(s: State, op: Op): State
    requires Enabled(s, op)
  {
    match op
    case Create(t) => State(s.list + [t], s.runnable + {t}, s.wakeup[t := 0])
    case Exit(t) => s.(list := Removed(s.list, t), runnable := s.runnable - {t})
    case Block(t) => s.(runnable := s.runnable - {t}, wakeup := s.wakeup[t := 0])
    case Wake(t) => Woken(s, t)
    case Sleep(t, until) => s.(runnable := s.runnable - {t}, wakeup := s.wakeup[t := until])
    case Schedule(now) => Chosen(s, now, s.FirstReady(now, 0))
  }

  // ----- bounded waiting

  /** The operation leaves x alone, and a decision comes no earlier than since. */
  predicate Spares(op: Op, x: nat, since: nat) {
    match op
    case Schedule(now) => since <= now
    case Wake(_) => true
    case _ => op.t != x
  }

  /** The operations can be carried out one after the other. */
  ghost predicate IsRun(s: State, ops: seq<Op>)
    decreases |ops|
  {
    ops == [] || (Enabled(s, ops[0]) && IsRun(Apply(s, ops[0]), ops[1..]))
  }

  /** x is the thread chosen by some schedule() call of the run. */
  ghost predicate IsChosen(s: State, ops: seq<Op>, x: nat)
    requires IsRun(s, ops)
    decreases |ops|
  {
    ops != [] && (
      (ops[0].Schedule? && s.list[s.FirstReady(ops[0].now, 0)] == x) || IsChosen(Apply(s, ops[0]), ops[1..], x))
  }

  function Decisions(ops: seq<Op>): nat {
    if ops == [] then 0 else (if ops[0].Schedule? then 1 else 0) + Decisions(ops[1..])
  }

  /** x is at place p of the list, and ready from time since on. */
  ghost predicate Waits(s: State, x: nat, p: nat, since: nat) {
    s.Distinct() && p < |s.list| && s.list[p] == x && s.Ready(x, since)
  }

  lemma {:induction false} RemovedMoves(list: seq<nat>, t: nat, x: nat, p: nat) returns (q: nat)
    requires p < |list| && list[p] == x && t != x
    requires forall i, j :: 0 <= i < j < |list| ==> list[i] != list[j]
    ensures q <= p && q < |Removed(list, t)| && Removed(list, t)[q] == x
    ensures forall i, j :: 0 <= i < j < |Removed(list, t)| ==> Removed(list, t)[i] != Removed(list, t)[j]
  {
    var rest := list[1..];
    RemovedDistinct(list, t);
    if p == 0 {
      q := 0;
    } else {
      q := RemovedMoves(rest, t, x, p - 1);
      if list[0] != t {
        q := q + 1;
      }
    }
  }

  lemma {:induction false} RemovedDistinct(list: seq<nat>, t: nat)
    requires forall i, j :: 0 <= i < j < |list| ==> list[i] != list[j]
    ensures forall i, j :: 0 <= i < j < |Removed(list, t)| ==> Removed(list, t)[i] != Removed(list, t)[j]
  {
    if list != [] {
      RemovedDistinct(list[1..], t);
      var rest := Removed(list[1..], t);
      forall k | 0 <= k < |rest|
        ensures rest[k] != list[0]
      {
        assert rest[k] in rest;
      }
    }
  }

  lemma ToTailMoves(list: seq<nat>, k: nat, p: nat)
    requires k < p < |list| && forall i, j :: 0 <= i < j < |list| ==> list[i] != list[j]
    ensures ToTail(list, k)[p - 1] == list[p]
    ensures forall i, j :: 0 <= i < j < |list| ==> ToTail(list, k)[i] != ToTail(list, k)[j]
  {
    var r := ToTail(list, k);
    forall i, j | 0 <= i < j < |list|
      ensures r[i] != r[j]
    {
      assert r[i] == list[if i < k then i else if i < |list| - 1 then i + 1 else k];
      assert r[j] == list[if j < k then j else if j < |list| - 1 then j + 1 else k];
    }
  }

  /** A decision chooses x or brings it forward. */
  lemma DecisionMoves(s: State, now: nat, x: nat, p: nat, since: nat)
    requires Waits(s, x, p, since) && since <= now && s.FirstReady(now, 0) < |s.list|
    ensures s.FirstReady(now, 0) <= p
    ensures s.FirstReady(now, 0) < p ==> Waits(Chosen(s, now, s.FirstReady(now, 0)), x, p - 1, since)
  {
    var k := s.FirstReady(now, 0);
    assert s.Ready(x, now);
    if k < p {
      ToTailMoves(s.list, k, p);
    }
  }

  /** An operation that spares x leaves it waiting, no further back. */
  lemma OpMoves(s: State, op: Op, x: nat, p: nat, since: nat) returns (q: nat)
    requires Waits(s, x, p, since) && Enabled(s, op) && Spares(op, x, since)
    ensures
      || (op.Schedule? && s.list[s.FirstReady(op.now, 0)] == x)
      || (Waits(Apply(s, op), x, q, since) && (if op.Schedule? then q < p else q <= p))
  {
    q := p;
    match op
    case Schedule(now) =>
      DecisionMoves(s, now, x, p, since);
      q := if p > 0 then p - 1 else 0;
    case Exit(t) => q := RemovedMoves(s.list, t, x, p);
    case _ =>
  }

  /** Bounded waiting: a thread that is ready and left alone, with p threads
      ahead of it, is chosen by one of the next p + 1 decisions. */
  lemma {:induction false} BoundedWaiting(s: State, ops: seq<Op>, x: nat, p: nat, since: nat)
    requires Waits(s, x, p, since) && IsRun(s, ops) && (forall i :: 0 <= i < |ops| ==> Spares(ops[i], x, since))
    requires Decisions(ops) > p
    ensures IsChosen(s, ops, x)
    decreases |ops|
  {
    var q := OpMoves(s, ops[0], x, p, since);
    if !(ops[0].Schedule? && s.list[s.FirstReady(ops[0].now, 0)] == x) {
      BoundedWaiting(Apply(s, ops[0]), ops[1..], x, q, since);
    }
  }

  /** A thread on the list that is woken is chosen by one of the next p + 1
      decisions, whenever they are taken, if it is left alone. */
  lemma WokenIsChosen(s: State, ops: seq<Op>, x: nat, p: nat)
    requires s.Distinct() && p < |s.list| && s.list[p] == x && IsRun(s, ops) && ops != [] && ops[0] == Wake(x)
    requires (forall i :: 0 < i < |ops| ==> Spares(ops[i], x, 0)) && Decisions(ops) > p
    ensures IsChosen(s, ops, x)
  {
    assert Waits(Apply(s, ops[0]), x, p, 0);
    BoundedWaiting(Apply(s, ops[0]), ops[1..], x, p, 0);
  }

  /** A thread that sleeps is chosen by one of the first p + 1 decisions after its time. */
  lemma SleeperIsChosen(s: State, ops: seq<Op>, x: nat, p: nat, until: nat)
    requires s.Distinct() && p < |s.list| && s.list[p] == x && IsRun(s, ops) && ops != []
    requires until > 0 && ops[0] == Sleep(x, until)
    requires (forall i :: 0 < i < |ops| ==> Spares(ops[i], x, until)) && Decisions(ops) > p
    ensures IsChosen(s, ops, x)
  {
    assert Waits(Apply(s, ops[0]), x, p, until);
    BoundedWaiting(Apply(s, ops[0]), ops[1..], x, p, until);
  }

  /** A new thread is chosen once each of the others may have been. */
  lemma CreatedIsChosen(s: State, ops: seq<Op>, x: nat)
    requires s.Distinct() && IsRun(s, ops) && ops != [] && ops[0] == Create(x)
    requires (forall i :: 0 < i < |ops| ==> Spares(ops[i], x, 0)) && Decisions(ops) > |s.list|
    ensures IsChosen(s, ops, x)
  {
    assert Waits(Apply(s, ops[0]), x, |s.list|, 0);
    BoundedWaiting(Apply(s, ops[0]), ops[1..], x, |s.list|, 0);
  }

  // ----- who is not chosen

  /** x is not ready at any time before t. */
  ghost predicate Dormant(s: State, x: nat, t: nat) {
    x !in s.runnable && (s.WakeupOf(x) == 0 || t <= s.WakeupOf(x))
  }

  /** The operation does not make x ready before t, nor is it a decision after that. */
  predicate Leaves(op: Op, x: nat, t: nat) {
    match op
    case Schedule(now) => now < t
    case Create(u) => u != x
    case Wake(u) => u != x
    case Sleep(u, until) => u == x ==> until == 0 || t <= until
    case _ => true
  }

  lemma DormantStep(s: State, op: Op, x: nat, t: nat)
    requires Dormant(s, x, t) && Enabled(s, op) && Leaves(op, x, t)
    ensures Dormant(Apply(s, op), x, t)
    ensures op.Schedule? ==> s.list[s.FirstReady(op.now, 0)] != x
  {
    if op.Schedule? {
      var k := s.FirstReady(op.now, 0);
      assert s.Ready(s.list[k], op.now);
    }
  }

  lemma {:induction false} DormantIsNotChosen(s: State, ops: seq<Op>, x: nat, t: nat)
    requires Dormant(s, x, t) && IsRun(s, ops) && forall i :: 0 <= i < |ops| ==> Leaves(ops[i], x, t)
    ensures !IsChosen(s, ops, x)
    decreases |ops|
  {
    if ops != [] {
      DormantStep(s, ops[0], x, t);
      DormantIsNotChosen(Apply(s, ops[0]), ops[1..], x, t);
    }
  }

  /** A time after every decision. */
  function TimeAfter(ops: seq<Op>): (t: nat)
    ensures forall i :: 0 <= i < |ops| && ops[i].Schedule? ==> ops[i].now < t
  {
    if ops == [] then 0
    else
      var rest := TimeAfter(ops[1..]);
      if ops[0].Schedule? && rest <= ops[0].now then ops[0].now + 1 else rest
  }

  /** A thread that blocks is not chosen until it is woken. */
  lemma BlockedIsNotChosen(s: State, ops: seq<Op>, x: nat)
    requires IsRun(s, ops) && ops != [] && ops[0] == Block(x)
    requires forall i :: 0 < i < |ops| ==> ops[i] != Wake(x) && ops[i] != Create(x) && !(ops[i].Sleep? && ops[i].t == x)
    ensures !IsChosen(s, ops, x)
  {
    var t := TimeAfter(ops);
    assert Dormant(Apply(s, ops[0]), x, t);
    forall i | 0 <= i < |ops[1..]|
      ensures Leaves(ops[1..][i], x, t)
    {
      assert ops[1..][i] == ops[i + 1];
    }
    DormantIsNotChosen(Apply(s, ops[0]), ops[1..], x, t);
  }

  /** A thread that sleeps is not chosen before its time unless it is woken. */
  lemma SleeperIsNotChosen(s: State, ops: seq<Op>, x: nat, until: nat)
    requires IsRun(s, ops) && ops != [] && ops[0] == Sleep(x, until)
    requires forall i :: 0 < i < |ops| ==> ops[i] != Wake(x) && ops[i] != Create(x) && !(ops[i].Sleep? && ops[i].t == x)
    requires forall i :: 0 < i < |ops| && ops[i].Schedule? ==> ops[i].now < until
    ensures !IsChosen(s, ops, x)
  {
    forall i | 0 <= i < |ops[1..]|
      ensures Leaves(ops[1..][i], x, until)
    {
      assert ops[1..][i] == ops[i + 1];
    }
    DormantIsNotChosen(Apply(s, ops[0]), ops[1..], x, until);
  }

  lemma {:induction false} AbsentIsNotChosen(s: State, ops: seq<Op>, x: nat)
    requires x !in s.list && IsRun(s, ops) && Create(x) !in ops
    ensures !IsChosen(s, ops, x)
    decreases |ops|
  {
    if ops != [] {
      if ops[0].Schedule? {
        ToTailMembers(s.list, s.FirstReady(ops[0].now, 0), x);
      }
      AbsentIsNotChosen(Apply(s, ops[0]), ops[1..], x);
    }
  }

  /** A thread that has exited is not chosen, woken or not. */
  lemma ExitedIsNotChosen(s: State, ops: seq<Op>, x: nat)
    requires IsRun(s, ops) && ops != [] && ops[0] == Exit(x) && Create(x) !in ops
    ensures !IsChosen(s, ops, x)
  {
    AbsentIsNotChosen(Apply(s, ops[0]), ops[1..], x);
  }

  /** The state a run ends in. */
  ghost function AfterOps(s: State, ops: seq<Op>): State
    requires IsRun(s, ops)
    decreases |ops|
  {
    if ops == [] then s else AfterOps(Apply(s, ops[0]), ops[1..])
  }

  lemma {:induction false} RunnableUntilStopped(s: State, ops: seq<Op>, x: nat)
    requires x in s.runnable && IsRun(s, ops)
    requires forall i :: 0 <= i < |ops| && (ops[i].Block? || ops[i].Sleep? || ops[i].Exit?) ==> ops[i].t != x
    ensures x in AfterOps(s, ops).runnable
    decreases |ops|
  {
    if ops != [] {
      RunnableUntilStopped(Apply(s, ops[0]), ops[1..], x);
    }
  }

  /** A thread that is runnable has no wakeup time left over. */
  ghost predicate Settled(s: State) {
    forall t :: t in s.runnable ==> s.WakeupOf(t) == 0
  }

  lemma {:induction false} SettledOnRuns(s: State, ops: seq<Op>)
    requires Settled(s) && IsRun(s, ops)
    ensures Settled(AfterOps(s, ops))
    decreases |ops|
  {
    if ops != [] {
      SettledOnRuns(Apply(s, ops[0]), ops[1..]);
    }
  }

  /** A thread that is chosen, though only its time may have come, is runnable
      until it blocks, sleeps or exits. */
  lemma ChosenIsRunnable(s: State, ops: seq<Op>, x: nat)
    requires IsRun(s, ops) && ops != [] && ops[0].Schedule? && s.list[s.FirstReady(ops[0].now, 0)] == x
    requires forall i :: 0 <= i < |ops| && (ops[i].Block? || ops[i].Sleep? || ops[i].Exit?) ==> ops[i].t != x
    ensures x in AfterOps(s, ops).runnable
  {
    assert s.Ready(x, ops[0].now);
    RunnableUntilStopped(Apply(s, ops[0]), ops[1..], x);
  }

  // ----- stacks

  /** The scheduler with its threads' stacks: who runs, who is inside schedule()
      waiting to be resumed, who has exited, and whose stack has been freed. */
  datatype Life = Life(s: State, current: nat, suspended: set<nat>, exited: seq<nat>, freed: set<nat>)
  {
    /** A thread resumed inside schedule() goes on after switch_threads, with its
        own `prev`, which is itself; a new one begins with its function. */
    predicate Resumes(next: nat) {
      next == current || next in suspended
    }

    /** Only threads that have exited and do not run are freed. */
    ghost predicate Ok() {
      && current !in freed
      && (forall t :: t in exited ==> t !in s.list && t !in freed)
      && (forall t :: t in s.list ==> t !in freed)
    }
  }

  datatype Act =
    | Begin(t: nat)        // create_thread
    | End                  // exit_thread, by the running thread
    | Other(op: Op)        // block, wake, msleep up to its call of schedule
    | Decide(now: nat)     // schedule, by the running thread

  predicate Can(l: Life, act: Act) {
    match act
    case Begin(t) => t !in l.s.list && t !in l.exited && t !in l.freed && t != l.current && t !in l.suspended
    case End => l.current in l.s.list
    case Other(op) => op.Block? || op.Wake? || op.Sleep?
    case Decide(now) => Enabled(l.s, Op.Schedule(now))
  }

  /** The exited threads other than prev. */
  function Reaped(exited: seq<nat>, prev: nat): set<nat> {
    set t | t in exited && t != prev
  }

  /** The exited threads that are prev. */
  function Spared(exited: seq<nat>, prev: nat): (r: seq<nat>)
    ensures forall t :: t in r <==> t in exited && t == prev
  {
    if exited == [] then []
    else Spared(exited[..|exited| - 1], prev) + if exited[|exited| - 1] == prev then [prev] else []
  }

  lemma {:induction false} NoneSpared(exited: seq<nat>, prev: nat)
    requires prev !in exited
    ensures Spared(exited, prev) == []
  {
    if exited != [] {
      NoneSpared(exited[..|exited| - 1], prev);
    }
  }

  lemma ReapedNext(exited: seq<nat>, i: nat, prev: nat)
    requires i < |exited|
    ensures Spared(exited[..i + 1], prev) == Spared(exited[..i], prev) + if exited[i] == prev then [prev] else []
    ensures Reaped(exited[..i + 1], prev) == Reaped(exited[..i], prev) + if exited[i] == prev then {} else {exited[i]}
  {
    assert exited[..i + 1][..i] == exited[..i];
  }

  /** The running thread leaves the processor to next. */
  function Switched(l: Life, s: State, next: nat): Life {
    var m := l.(s := s, current := next, suspended := l.suspended + {l.current} - {next});
    if l.Resumes(next) then m.(exited := Spared(l.exited, next), freed := l.freed + Reaped(l.exited, next)) else m
  }

  function Acted(l: Life, act: Act): Life
    requires Can(l, act)
  {
    match act
    case Begin(t) => l.(s := Apply(l.s, Create(t)))
    case End => l.(s := Apply(l.s, Exit(l.current)), exited := [l.current] + l.exited)
    case Other(op) => l.(s := Apply(l.s, op))
    case Decide(now) => Switched(l, Apply(l.s, Op.Schedule(now)), l.s.list[l.s.FirstReady(now, 0)])
  }

  lemma ToTailMembers(list: seq<nat>, k: nat, t: nat)
    requires k < |list|
    ensures t in ToTail(list, k) <==> t in list
  {
    assert list == list[..k] + [list[k]] + list[k + 1..];
  }

  lemma ActKeeps(l: Life, act: Act)
    requires l.Ok() && Can(l, act)
    ensures Acted(l, act).Ok()
    ensures forall t :: t in Acted(l, act).freed && t !in l.freed ==> t in l.exited && t != Acted(l, act).current
  {
    if act.Decide? {
      var k := l.s.FirstReady(act.now, 0);
      forall t
        ensures t in ToTail(l.s.list, k) <==> t in l.s.list
      {
        ToTailMembers(l.s.list, k, t);
      }
    }
  }

  ghost predicate IsLife(trace: seq<Life>, acts: seq<Act>) {
    && |trace| == |acts| + 1 && trace[0].Ok()
    && forall i :: 0 <= i < |acts| ==> Acts(trace[i], acts[i], trace[i + 1])
  }

  ghost predicate Acts(l: Life, act: Act, m: Life) {
    Can(l, act) && m == Acted(l, act)
  }

  /** The stack in use is never freed, nor is that of a thread that can be chosen. */
  lemma {:induction false} StackInUse(trace: seq<Life>, acts: seq<Act>, n: nat)
    requires IsLife(trace, acts) && n < |trace|
    ensures trace[n].current !in trace[n].freed && forall t :: t in trace[n].s.list ==> t !in trace[n].freed
    ensures trace[n].Ok()
  {
    if n > 0 {
      StackInUse(trace, acts, n - 1);
      assert Acts(trace[n - 1], acts[n - 1], trace[n]);
      ActKeeps(trace[n - 1], acts[n - 1]);
    }
  }

  /** A decision for a thread that is resumed frees every thread that has
      exited, the one leaving included; one for a new thread frees none. */
  lemma DecisionFrees(l: Life, now: nat)
    requires l.Ok() && Can(l, Decide(now))
    ensures var m := Acted(l, Decide(now));
      if l.Resumes(m.current) then m.exited == [] && m.freed == l.freed + set t | t in l.exited
      else m.exited == l.exited && m.freed == l.freed
  {
    var next := l.s.list[l.s.FirstReady(now, 0)];
    NoneSpared(l.exited, next);
  }

  /** Thread t has run at one of the first n times. */
  ghost predicate HasRun(trace: seq<Life>, n: nat, t: nat)
    requires n <= |trace|
  {
    exists i :: 0 <= i < n && trace[i].current == t
  }

  lemma SuspendStep(l: Life, act: Act, m: Life, t: nat)
    requires Acts(l, act, m)
    ensures act.Decide? ==> (t in m.suspended <==> t != m.current && (t in l.suspended || t == l.current))
    ensures !act.Decide? ==> m.suspended == l.suspended && m.current == l.current
  {
  }

  lemma HasRunNext(trace: seq<Life>, n: nat, t: nat)
    requires n < |trace|
    ensures HasRun(trace, n + 1, t) <==> HasRun(trace, n, t) || trace[n].current == t
  {
    if HasRun(trace, n + 1, t) {
      var i :| 0 <= i < n + 1 && trace[i].current == t;
      assert i < n || i == n;
    }
  }

  /** The threads waiting inside schedule() are those that have run and do not run now. */
  lemma {:induction false} SuspendedIff(trace: seq<Life>, acts: seq<Act>, n: nat, t: nat)
    requires IsLife(trace, acts) && n < |trace| && trace[0].suspended == {}
    ensures t in trace[n].suspended <==> t != trace[n].current && HasRun(trace, n, t)
  {
    if n > 0 {
      SuspendedIff(trace, acts, n - 1, t);
      assert Acts(trace[n - 1], acts[n - 1], trace[n]);
      SuspendStep(trace[n - 1], acts[n - 1], trace[n], t);
      HasRunNext(trace, n - 1, t);
    }
  }

  /** A decision frees the threads that have exited if and only if the thread
      chosen has run before: a new thread does not come out of schedule(). */
  lemma FreesIffRunBefore(trace: seq<Life>, acts: seq<Act>, n: nat)
    requires IsLife(trace, acts) && n < |acts| && acts[n].Decide? && trace[0].suspended == {}
    ensures var l, m := trace[n], trace[n + 1];
      if HasRun(trace, n + 1, m.current) then m.exited == [] && m.freed == l.freed + set t | t in l.exited
      else m.exited == l.exited && m.freed == l.freed
  {
    StackInUse(trace, acts, n);
    assert Acts(trace[n], acts[n], trace[n + 1]);
    DecisionFrees(trace[n], acts[n].now);
    SuspendedIff(trace, acts, n, trace[n + 1].current);
    HasRunNext(trace, n, trace[n + 1].current);
  }

  // ----- the code

  /** What happens while the domain is blocked: handlers wake threads, time passes. */
  datatype Round = Round(now: nat, wakes: seq<nat>)

  /** The state once handlers have woken the first n of ts. */
  function AfterWakes(s: State, ts: seq<nat>, n: nat): State
    requires n <= |ts|
  {
    if n == 0 then s else Woken(AfterWakes(s, ts, n - 1), ts[n - 1])
  }

  /** The state after blocking through the first n rounds. */
  function AfterRounds(s: State, rounds: seq<Round>, n: nat): State
    requires n <= |rounds|
  {
    if n == 0 then s
    else AfterWakes(AfterRounds(s, rounds, n - 1), rounds[n - 1].wakes, |rounds[n - 1].wakes|)
  }

  /** No thread is ready when round n begins. */
  predicate Idle(s: State, rounds: seq<Round>, n: nat)
    requires n < |rounds|
  {
    var m := AfterRounds(s, rounds, n);
    m.FirstReady(rounds[n].now, 0) == |m.list|
  }

  class Threads {
    var list: seq<nat>
    var runnable: set<nat>
    var wakeup: map<nat, nat>
    var exited: seq<nat>
    var current: nat
    var suspended: set<nat>
    ghost var freed: set<nat>

    /** init_sched, and run_idle_thread: the idle thread, which is not on the list, runs. */
    constructor (idle: nat)
      ensures L() == Life(State([], {idle}, map[idle := 0]), idle, {}, [], {}) && L().Ok()
    {
      list, runnable, wakeup, exited := [], {idle}, map[idle := 0], [];
      current, suspended, freed := idle, {}, {};
    }

    ghost function S(): State
      reads this
    {
      State(list, runnable, wakeup)
    }

    ghost function L(): Life
      reads this
    {
      Life(S(), current, suspended, exited, freed)
    }

    function WakeupOf(t: nat): nat
      reads this
    {
      if t in wakeup then wakeup[t] else 0
    }

    /** wake. */
    method WakeThread(t: nat)
      modifies `runnable, `wakeup
      ensures S() == Apply(old(S()), Wake(t))
    {
      wakeup := wakeup[t := 0];
      runnable := runnable + {t};
    }

    /** block. */
    method BlockThread(t: nat)
      modifies `runnable, `wakeup
      ensures S() == Apply(old(S()), Block(t))
    {
      wakeup := wakeup[t := 0];
      runnable := runnable - {t};
    }

    /** msleep, before it calls schedule. */
    method SleepThread(t: nat, now: nat, milliseconds: nat)
      modifies `runnable, `wakeup
      ensures S() == Apply(old(S()), Sleep(t, now + milliseconds * 1_000_000))
    {
      wakeup := wakeup[t := now + milliseconds * 1_000_000];
      runnable := runnable - {t};
    }

    /** create_thread. */
    method CreateThread(t: nat)
      requires Can(L(), Begin(t))
      modifies `list, `runnable, `wakeup
      ensures L() == Acted(old(L()), Begin(t))
    {
      wakeup := wakeup[t := 0];
      runnable := runnable + {t};
      list := list + [t];
    }

    /** exit_thread, before it calls schedule. */
    method ExitThread()
      requires current in list
      modifies `list, `runnable, `exited
      ensures L() == Acted(old(L()), End)
    {
      list := Removed(list, current);
      runnable := runnable - {current};
      exited := [current] + exited;
    }

    /** One search of the list: the first ready thread, or how long to block. */
    method Search(now: nat) returns (next: Option<nat>, until: nat)
      modifies `list, `runnable, `wakeup
      ensures var k := old(S()).FirstReady(now, 0);
        if k < |old(list)| then next == Some(old(list)[k]) && S() == Chosen(old(S()), now, k)
        else next == None && S() == old(S())
      ensures next == None ==> now < until <= now + TEN_SECONDS
      ensures next == None ==> forall t :: t in list && WakeupOf(t) != 0 ==> until <= WakeupOf(t)
      ensures next == None && until < now + TEN_SECONDS ==> exists t :: t in list && WakeupOf(t) == until
    {
      next, until := None, now + TEN_SECONDS;
      var i := 0;
      while i < |list|
        invariant i <= |list| && S() == old(S()) && next == None
        invariant S().FirstReady(now, 0) == S().FirstReady(now, i)
        invariant now < until <= now + TEN_SECONDS
        invariant forall j :: 0 <= j < i && WakeupOf(list[j]) != 0 ==> until <= WakeupOf(list[j])
        invariant until < now + TEN_SECONDS ==> exists t :: t in list && WakeupOf(t) == until
      {
        var thread := list[i];
        if thread !in runnable && WakeupOf(thread) != 0 {
          if WakeupOf(thread) <= now {
            WakeThread(thread);
          } else if WakeupOf(thread) < until {
            until := WakeupOf(thread);
          }
        }
        if thread in runnable {
          next := Some(thread);
          list := ToTail(list, i);
          return;
        }
        i := i + 1;
      }
    }

    /** schedule, given what happens each time it blocks: it decides in the
        first round that finds a thread ready, and what runs after the switch
        runs on the stack of the thread chosen. */
    method Schedule(rounds: seq<Round>) returns (next: Option<nat>, n: nat)
      modifies this
      ensures n <= |rounds| && forall i :: 0 <= i < n ==> Idle(old(S()), rounds, i)
      ensures n == |rounds| ==> next == None && L() == old(L()).(s := AfterRounds(old(S()), rounds, n))
      ensures n < |rounds| ==>
        var s := AfterRounds(old(S()), rounds, n);
        && !Idle(old(S()), rounds, n) && next == Some(s.list[s.FirstReady(rounds[n].now, 0)])
        && L() == Acted(old(L()).(s := s), Decide(rounds[n].now))
    {
      next, n := None, 0;
      while n < |rounds|
        invariant n <= |rounds| && next == None && L() == old(L()).(s := AfterRounds(old(S()), rounds, n))
        invariant forall i :: 0 <= i < n ==> Idle(old(S()), rounds, i)
      {
        var until;
        next, until := Search(rounds[n].now);
        if next.Some? {
          Switch(next.value);
          return;
        }
        WakeAll(rounds[n].wakes);
        n := n + 1;
      }
    }

    /** switch_threads, and what follows it on the other stack. */
    method Switch(next: nat)
      modifies `current, `suspended, `exited, `freed
      ensures L() == Switched(old(L()), S(), next)
    {
      var resumes := next == current || next in suspended;
      suspended := suspended + {current} - {next};
      current := next;
      if resumes {
        Reap(next);
      }
    }

    /** The handlers that force_evtchn_callback runs. */
    method WakeAll(ts: seq<nat>)
      modifies `runnable, `wakeup
      ensures S() == AfterWakes(old(S()), ts, |ts|)
    {
      for i := 0 to |ts|
        invariant S() == AfterWakes(old(S()), ts, i)
      {
        WakeThread(ts[i]);
      }
    }

    /** The end of schedule: free every exited thread but prev. */
    method Reap(prev: nat)
      modifies `exited, `freed
      ensures exited == Spared(old(exited), prev) && freed == old(freed) + Reaped(old(exited), prev)
    {
      var kept: seq<nat> := [];
      for i := 0 to |exited|
        invariant exited == old(exited) && kept == Spared(exited[..i], prev)
        invariant freed == old(freed) + Reaped(exited[..i], prev)
      {
        ReapedNext(exited, i, prev);
        if exited[i] == prev {
          kept := kept + [prev];
        } else {
          freed := freed + {exited[i]};
        }
      }
      assert exited[..|exited|] == exited;
      exited := kept;
    }
  }
}
