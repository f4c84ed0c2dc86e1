/** Which tasks `task_block` and `task_unblock` can find.  They look at every slot up to the one they search for and
    read through a null pointer at an empty one. */
module Searching {
  import opened Options
  import opened Scheduler
  import opened BoundedWaiting

  // ---------------------------------------------------------------- process IDs

  /** Process IDs are distinct and were all handed out by the counter. */
  ghost predicate PidsOk(s: Sched) {
    && (forall t, u :: t in s.structs && u in s.structs && s.structs[t].pid == s.structs[u].pid ==> t == u)
    && (forall t :: t in s.structs ==> s.structs[t].pid <= s.taskCount)
  }

  /** No struct is new, none has another process ID, and the counter is the same. */
  ghost predicate SamePids(s: Sched, s': Sched) {
    && s'.taskCount == s.taskCount && s'.structs.Keys <= s.structs.Keys
    && forall t :: t in s'.structs ==> s'.structs[t].pid == s.structs[t].pid
  }

  lemma SamePidsOk(s: Sched, s': Sched)
    requires PidsOk(s) && SamePids(s, s')
    ensures PidsOk(s')
  {}

  lemma SchedulePids(s: Sched, s': Sched)
    requires Schedules(s, s')
    ensures SamePids(s, s')
  {}

  lemma StepPids(s: Sched, e: Event, s': Sched)
    requires PidsOk(s) && Step(s, e, s')
    ensures PidsOk(s')
  {
    if e.Fork? {
      ForkPids(s, e.child);
    } else {
      OtherPids(s, e, s');
      SamePidsOk(s, s');
    }
  }

  lemma ForkPids(s: Sched, child: Ref)
    requires PidsOk(s) && s.current in s.structs && child !in s.structs
    ensures PidsOk(Forked(s, child))
  {}

  lemma OtherPids(s: Sched, e: Event, s': Sched)
    requires Step(s, e, s') && !e.Fork?
    ensures SamePids(s, s')
  {
    match e
    case Schedule =>
    case Tick(_) => if Calls(s, e) { SchedulePids(Ticked(s), s'); }
    case Block(pid, state) => SchedulePids(Blocked(s, pid, state), s');
    case Unblock(pid, state) =>
    case Exit => ExitPids(s);
  }

  lemma ExitPids(s: Sched)
    requires MayExit(s)
    ensures SamePids(s, Exited(s))
  {
    ExitedStructs(s);
  }

  /** Process IDs are distinct in every state reached from boot. */
  lemma {:induction false} PidsAlong(ss: seq<Sched>, es: seq<Event>)
    requires IsRun(ss, es) && PidsOk(ss[0])
    ensures forall i :: 0 <= i < |ss| ==> PidsOk(ss[i])
    decreases |es|
  {
    if es != [] {
      assert Step(ss[0], es[0], ss[0 + 1]);
      StepPids(ss[0], es[0], ss[1]);
      PidsAlong(ss[1..], es[1..]);
      forall i | 0 <= i < |ss|
        ensures PidsOk(ss[i])
      {
        if i > 0 { assert ss[i] == ss[1..][i - 1]; }
      }
    }
  }

  lemma ReachablePids(ss: seq<Sched>, es: seq<Event>)
    requires IsRun(ss, es) && ss[0] == Boot()
    ensures forall i :: 0 <= i < |ss| ==> PidsOk(ss[i])
  {
    PidsAlong(ss, es);
  }

  // ---------------------------------------------------------------- who can be found

  function PidAt(s: Sched, i: Slot): int
    requires s.tasks[i].Some? && s.tasks[i].value in s.structs
  {
    s.structs[s.tasks[i].value].pid
  }

  /** No empty slot before slot `n`. */
  predicate FullBelow(s: Sched, n: nat)
    requires n <= 64
  {
    forall j: Slot :: j < n ==> s.tasks[j].Some?
  }

  /** A task that is there is found if and only if no empty slot comes before it. */
  lemma FoundIff(s: Sched, i: Slot)
    requires TableOk(s) && PidsOk(s) && s.tasks[i].Some?
    ensures Searchable(s, PidAt(s, i)) <==> FullBelow(s, i)
  {
    assert HasPid(s, i, PidAt(s, i));
    forall k: Slot | HasPid(s, k, PidAt(s, i))
      ensures k == i
    {
      assert s.tasks[k] == s.tasks[i];
    }
  }

  /** A process ID that nobody has is looked for safely if and only if no slot is empty. */
  lemma AbsentIff(s: Sched, pid: int)
    requires forall i: Slot :: !HasPid(s, i, pid)
    ensures Searchable(s, pid) <==> FullBelow(s, 64)
  {}

  /** Empty slots come after all others. */
  predicate Prefix(s: Sched) {
    forall i: Slot, j: Slot :: i < j && s.tasks[j].Some? ==> s.tasks[i].Some?
  }

  /** Every task can be found if and only if the slots in use are the first ones. */
  lemma AllFoundIff(s: Sched)
    requires TableOk(s) && PidsOk(s)
    ensures (forall i: Slot :: s.tasks[i].Some? ==> Searchable(s, PidAt(s, i))) <==> Prefix(s)
  {
    forall i: Slot | s.tasks[i].Some?
      ensures Searchable(s, PidAt(s, i)) <==> FullBelow(s, i)
    {
      FoundIff(s, i);
    }
  }

  /** A task can block if and only if no empty slot comes before it: otherwise the run ends at a null pointer. */
  lemma BlockIff(s: Sched, i: Slot, state: RunState)
    requires Scheduler.Inv(s) && PidsOk(s) && s.tasks[i].Some?
    ensures (exists s' :: Step(s, Block(PidAt(s, i), state), s')) <==> FullBelow(s, i)
  {
    FoundIff(s, i);
    if FullBelow(s, i) {
      var b := Blocked(s, PidAt(s, i), state);
      BlockedInv(s, PidAt(s, i), state);
      var s' := SomeSchedule(b);
      assert Step(s, Block(PidAt(s, i), state), s');
    }
  }

  lemma SomeSchedule(s: Sched) returns (s': Sched)
    requires Scheduler.Inv(s)
    ensures Schedules(s, s')
  {
    CreditedOk(s);
    var c := Credited(s);
    var k := SomeBest(c);
    s' := Switched(c, k);
    assert SwitchesTo(c, k, s');
  }

  lemma SomeBest(c: Sched) returns (k: Slot)
    requires TableOk(c)
    ensures Best(c, k) && c.tasks[k].Some? && c.tasks[k].value in c.structs
  {
    var n: nat := 0;
    var found := false;
    k := 0;
    while n < 64
      invariant n <= 64
      invariant found ==> k < n && Eligible(c, k)
      invariant found ==> forall i: Slot :: i < n && Eligible(c, i) ==> CounterAt(c, i) <= CounterAt(c, k)
      invariant found ==> forall i: Slot :: i < k && Eligible(c, i) ==> CounterAt(c, i) < CounterAt(c, k)
      invariant !found ==> k == 0 && forall i: Slot :: i < n ==> !Eligible(c, i)
    {
      var i: Slot := n;
      if Eligible(c, i) && (!found || CounterAt(c, i) > CounterAt(c, k)) {
        k, found := i, true;
      }
      n := n + 1;
    }
  }

  // ---------------------------------------------------------------- a run that leaves a hole

  /** The table with the first task and its two children, then without the first child. */
  function Table(a: Option<Ref>, b: Option<Ref>): Slots { Empty(64)[0 := Some(INIT)][1 := a][2 := b] }

  function TaskOf(pid: int, parent: Option<Ref>, children: int, counter: int): Task {
    Task(pid, parent, children, TaskRunning, 1, counter)
  }

  const A: Ref := 1
  const B: Ref := 2

  function AfterForks(): Sched {
    Sched(Table(Some(A), Some(B)),
          map[INIT := TaskOf(0, None, 2, 0), A := TaskOf(2, Some(INIT), 0, 1), B := TaskOf(3, Some(INIT), 0, 1)], INIT, 3)
  }

  function FirstChildRuns(): Sched {
    Sched(Table(Some(A), Some(B)),
          map[INIT := TaskOf(0, None, 2, 1), A := TaskOf(2, Some(INIT), 0, 1), B := TaskOf(3, Some(INIT), 0, 2)], A, 3)
  }

  function FirstChildGone(): Sched {
    Sched(Table(None, Some(B)), map[INIT := TaskOf(0, None, 1, 1), B := TaskOf(3, Some(INIT), 0, 2)], INIT, 3)
  }

  function SecondChildRuns(): Sched {
    Sched(Table(None, Some(B)), map[INIT := TaskOf(0, None, 1, 1), B := TaskOf(3, Some(INIT), 0, 1)], B, 3)
  }

  lemma TableSlots(a: Option<Ref>, b: Option<Ref>)
    ensures var t := Table(a, b);
            t[0] == Some(INIT) && t[1] == a && t[2] == b && forall i: Slot :: i > 2 ==> t[i] == None
  {
    EmptySlots(64);
  }

  lemma TwoForks()
    ensures Step(Step1(), Fork(B), AfterForks()) && Step(Boot(), Fork(A), Step1())
  {
    EmptySlots(64);
    TableSlots(Some(A), None);
    TableSlots(Some(A), Some(B));
    var t0, t1 := Boot().tasks, Step1().tasks;
    assert t1 == t0[1 := Some(A)];
    assert AfterForks().tasks == t1[2 := Some(B)];
    assert Added(t0, A, 0) == Added(t0, A, 1) == t1;
    assert Added(t1, B, 0) == Added(t1, B, 1) == Added(t1, B, 2) == AfterForks().tasks;
    assert Forked(Boot(), A).structs == Step1().structs;
    assert Forked(Step1(), B).structs == AfterForks().structs;
  }

  function Step1(): Sched {
    Sched(Table(Some(A), None), map[INIT := TaskOf(0, None, 1, 0), A := TaskOf(2, Some(INIT), 0, 1)], INIT, 2)
  }

  lemma ChildRuns()
    ensures Step(AfterForks(), Event.Schedule, FirstChildRuns())
  {
    TableSlots(Some(A), Some(B));
    var c, k: Slot := Credited(AfterForks()), 1;
    assert c.tasks[0] == Some(INIT) && c.tasks[1] == Some(A) && c.tasks[2] == Some(B);
    assert Some(INIT) in c.tasks && Some(A) in c.tasks && Some(B) in c.tasks;
    assert c.structs[INIT].counter == 1 && c.structs[A].counter == 2 && c.structs[B].counter == 2;
    assert Eligible(c, k);
    assert Switched(c, k).structs == FirstChildRuns().structs;
    assert Best(c, k) && SwitchesTo(c, k, FirstChildRuns());
  }

  lemma ChildExits()
    ensures Step(FirstChildRuns(), Exit, FirstChildGone())
  {
    var s := FirstChildRuns();
    TableSlots(Some(A), Some(B));
    TableSlots(None, Some(B));
    assert HasPid(s, 0, 0);
    assert Removed(s.tasks, A, 0) == Removed(s.tasks, A, 1) == s.tasks[1 := None];
    assert s.tasks[1 := None] == FirstChildGone().tasks;
    var c := ChildLess(s, INIT);
    assert FindPid(c, 0, 0) == Some(0);
    assert Unblocked(c, 0, TaskWaiting) == c;
    assert Left(c).structs == FirstChildGone().structs;
  }

  lemma SecondRuns()
    ensures Step(FirstChildGone(), Event.Schedule, SecondChildRuns())
  {
    TableSlots(None, Some(B));
    var c, k: Slot := Credited(FirstChildGone()), 2;
    assert c.tasks[0] == Some(INIT) && c.tasks[2] == Some(B);
    assert Some(INIT) in c.tasks && Some(B) in c.tasks;
    assert c.structs[INIT].counter == 1 && c.structs[B].counter == 3;
    assert Eligible(c, k);
    assert Switched(c, k).structs == SecondChildRuns().structs;
    assert Best(c, k) && SwitchesTo(c, k, SecondChildRuns());
  }

  const HOLE_EVENTS: seq<Event> := [Fork(A), Fork(B), Event.Schedule, Exit, Event.Schedule]

  function HoleState(k: nat): Sched
    requires k <= 5
  {
    match k
    case 0 => Boot()
    case 1 => Step1()
    case 2 => AfterForks()
    case 3 => FirstChildRuns()
    case 4 => FirstChildGone()
    case 5 => SecondChildRuns()
  }

  lemma HoleStep(k: nat)
    requires k < 5
    ensures Step(HoleState(k), HOLE_EVENTS[k], HoleState(k + 1))
  {
    match k
    case 0 => TwoForks();
    case 1 => TwoForks();
    case 2 => ChildRuns();
    case 3 => ChildExits();
    case 4 => SecondRuns();
  }

  /** Two forks, the first child runs and exits, the second child runs. */
  lemma HoleRun() returns (ss: seq<Sched>)
    ensures IsRun(ss, HOLE_EVENTS) && ss[0] == Boot() && ss[5] == SecondChildRuns()
  {
    ss := seq(6, k requires 0 <= k <= 5 => HoleState(k));
    forall k | 0 <= k < 5
      ensures Step(ss[k], HOLE_EVENTS[k], ss[k + 1])
    {
      HoleStep(k);
    }
  }

  /** After the first child is gone the second cannot block any more: the search for its process ID meets the hole. */
  lemma HoleAfterExit() returns (ss: seq<Sched>, s: Sched)
    ensures IsRun(ss, HOLE_EVENTS) && ss[0] == Boot() && ss[5] == s
    ensures s.current in s.structs && s.structs[s.current].pid == 3 && !Searchable(s, 3)
    ensures forall state, s' :: !Step(s, Block(3, state), s')
  {
    ss := HoleRun();
    s := SecondChildRuns();
    HoleSeen();
  }

  lemma HoleSeen()
    ensures !Searchable(SecondChildRuns(), 3)
  {
    TableSlots(None, Some(B));
    assert SecondChildRuns().tasks[1] == None;
  }
}
