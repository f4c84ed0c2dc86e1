/** No task waits for ever: whoever is ready to run gets the processor within 63 runs of the
    scheduler, whatever the other tasks do in the meantime. */
module BoundedWaiting {
  import opened Options
  import opened Scheduler

  /** Slot `w` holds a task that is ready, and somebody else runs. */
  ghost predicate Waiting(s: Sched, w: Slot) {
    && s.tasks[w].Some? && s.tasks[w].value in s.structs
    && s.structs[s.tasks[w].value].state == TaskRunning
    && s.tasks[w] != Some(s.current)
  }

  /** Whoever is in slot `i` would be chosen over whoever is in slot `w`, were both ready. */
  ghost predicate IsAhead(s: Sched, w: Slot, i: Slot)
    requires Waiting(s, w)
  {
    && i != w && s.tasks[i].Some? && s.tasks[i] != Some(s.current) && s.tasks[i].value in s.structs
    && (CounterAt(s, i) > CounterAt(s, w) || (CounterAt(s, i) == CounterAt(s, w) && i < w))
  }

  ghost function Ahead(s: Sched, w: Slot): set<Slot>
    requires Waiting(s, w)
  {
    set i: Slot | 0 <= i < 64 && IsAhead(s, w, i)
  }

  /** How often the scheduler can still choose somebody else. */
  ghost function Budget(s: Sched, w: Slot): nat
    requires Waiting(s, w)
  {
    if CounterAt(s, w) >= 2 then |Ahead(s, w)| else 62
  }

  // ---------------------------------------------------------------- sizes

  ghost function SlotsBelow(n: nat): (r: set<Slot>)
    requires n <= 64
    ensures |r| == n && forall i: Slot :: i in r <==> i < n
  {
    if n == 0 then {} else SlotsBelow(n - 1) + {n - 1}
  }

  lemma {:induction false} Smaller<T>(a: set<T>, b: set<T>)
    requires a <= b
    ensures |a| <= |b|
  {
    if a != {} {
      var x :| x in a;
      RemoveOne(a, x);
      RemoveOne(b, x);
      Smaller(a - {x}, b - {x});
    }
  }

  lemma SizeWithoutTwo(n: nat, a: set<Slot>, x: Slot, y: Slot)
    requires n <= 64 && x < n && y < n && x != y
    requires forall i: Slot :: i in a ==> i < n && i != x && i != y
    ensures |a| <= n - 2
  {
    var all := SlotsBelow(n);
    RemoveOne(all, x);
    RemoveOne(all - {x}, y);
    Smaller(a, all - {x} - {y});
  }

  /** The waiting task and the running one are not ahead of the waiting one. */
  lemma AheadSize(s: Sched, w: Slot, k: Slot)
    requires Waiting(s, w) && s.tasks[k] == Some(s.current)
    ensures |Ahead(s, w)| <= 62
  {
    SizeWithoutTwo(64, Ahead(s, w), w, k);
  }

  // ---------------------------------------------------------------- one run of the scheduler

  /** What the scheduler does to counters. */
  ghost predicate Chose(s: Sched, k: Slot, s': Sched) {
    && s'.tasks == s.tasks && s.tasks[k] == Some(s'.current)
    && forall i: Slot :: s.tasks[i].Some? ==>
         && s.tasks[i].value in s.structs && s.tasks[i].value in s'.structs
         && CounterAt(s', i) == if i == k || s.tasks[i] == Some(s.current) then 1 else CounterAt(s, i) + 1
  }

  /** Whoever is chosen over a waiting task was ahead of it. */
  lemma ChosenWasAhead(s: Sched, w: Slot, s': Sched)
    returns (k: Slot)
    requires Inv(s) && Waiting(s, w) && Schedules(s, s') && Waiting(s', w)
    ensures Chose(s, k, s') && IsAhead(s, w, k)
  {
    CreditedOk(s);
    var c := Credited(s);
    k :| Best(c, k) && SwitchesTo(c, k, s');
    assert Eligible(c, w);
    assert Eligible(c, k);
  }

  /** It is not ahead any more, and nobody else gets ahead. */
  lemma NobodyGetsAhead(s: Sched, w: Slot, s': Sched, k: Slot)
    requires Waiting(s, w) && Waiting(s', w) && Chose(s, k, s') && CounterAt(s, w) >= 1 && k != w
    ensures Ahead(s', w) <= Ahead(s, w) - {k} && CounterAt(s', w) == CounterAt(s, w) + 1
  {
    forall i: Slot | IsAhead(s', w, i)
      ensures IsAhead(s, w, i) && i != k
    {
      assert s.tasks[i] == s'.tasks[i];
    }
  }

  lemma ScheduleStep(s: Sched, w: Slot, s': Sched)
    requires Inv(s) && Waiting(s, w) && Schedules(s, s') && Waiting(s', w)
    ensures Budget(s', w) < Budget(s, w)
  {
    var k := ChosenWasAhead(s, w, s');
    NobodyGetsAhead(s, w, s', k);
    assert k in Ahead(s, w);
    RemoveOne(Ahead(s, w), k);
    Smaller(Ahead(s', w), Ahead(s, w) - {k});
    var c: Slot :| s.tasks[c] == Some(s.current);
    AheadSize(s, w, c);
  }

  // ---------------------------------------------------------------- steps that do not run the scheduler

  /** The waiting task keeps its credit, and whoever is ahead of it afterwards was so before, unless it
      has one credit only. */
  ghost predicate Quiet(s: Sched, s': Sched, w: Slot) {
    && Waiting(s, w) && Waiting(s', w) && CounterAt(s', w) == CounterAt(s, w)
    && (CounterAt(s, w) >= 2 ==> forall i: Slot :: IsAhead(s', w, i) ==> IsAhead(s, w, i))
  }

  lemma QuietBudget(s: Sched, s': Sched, w: Slot)
    requires Quiet(s, s', w)
    ensures Budget(s', w) <= Budget(s, w)
  {
    if CounterAt(s, w) >= 2 {
      Smaller(Ahead(s', w), Ahead(s, w));
    }
  }

  /** Same table, same counters except the running task's. */
  lemma SameTableQuiet(s: Sched, s': Sched, w: Slot)
    requires Waiting(s, w) && Waiting(s', w) && s'.tasks == s.tasks && s'.current == s.current
    requires s'.structs.Keys == s.structs.Keys
    requires forall t :: t in s.structs && t != s.current ==> s'.structs[t].counter == s.structs[t].counter
    ensures Quiet(s, s', w)
  {
  }

  lemma ForkQuiet(s: Sched, child: Ref, w: Slot)
    requires Inv(s) && child !in s.structs && Waiting(s, w) && s.current in s.structs && Waiting(Forked(s, child), w)
    ensures Quiet(s, Forked(s, child), w)
  {
    var s' := Forked(s, child);
    AddedSlots(s.tasks, child, 0);
    forall i: Slot | IsAhead(s', w, i) && CounterAt(s, w) >= 2
      ensures IsAhead(s, w, i)
    {
    }
  }

  lemma ExitQuiet(s: Sched, w: Slot)
    requires Inv(s) && MayExit(s) && Waiting(s, w) && Waiting(Exited(s), w)
    ensures Quiet(s, Exited(s), w)
  {
    ExitedStructs(s);
    RemovedSlots(s.tasks, s.current, 0);
  }

  // ---------------------------------------------------------------- every step

  lemma SchedulesKeepsState(s: Sched, s': Sched, w: Slot)
    requires Schedules(s, s') && Waiting(s', w) && s.tasks[w] != Some(s.current)
    ensures Waiting(s, w)
  {
  }

  lemma BlockedWaiting(s: Sched, pid: int, state: RunState, w: Slot)
    requires Waiting(s, w) && Waiting(Blocked(s, pid, state), w)
    ensures Quiet(s, Blocked(s, pid, state), w)
  {
    SameTableQuiet(s, Blocked(s, pid, state), w);
  }

  lemma StepBudget(s: Sched, e: Event, s': Sched, w: Slot)
    requires Inv(s) && Step(s, e, s') && Waiting(s, w) && Waiting(s', w)
    ensures Budget(s', w) + (if Calls(s, e) then 1 else 0) <= Budget(s, w)
  {
    match e
    case Schedule =>
      ScheduleStep(s, w, s');
    case Tick(_) =>
      TickedInv(s);
      SameTableQuiet(s, Ticked(s), w);
      QuietBudget(s, Ticked(s), w);
      if Calls(s, e) {
        ScheduleStep(Ticked(s), w, s');
      }
    case Block(pid, state) =>
      var b := Blocked(s, pid, state);
      BlockedInv(s, pid, state);
      SchedulesKeepsState(b, s', w);
      BlockedWaiting(s, pid, state, w);
      QuietBudget(s, b, w);
      ScheduleStep(b, w, s');
    case Unblock(pid, state) =>
      SameTableQuiet(s, s', w);
      QuietBudget(s, s', w);
    case Fork(child) =>
      ForkQuiet(s, child, w);
      QuietBudget(s, s', w);
    case Exit =>
      ExitQuiet(s, w);
      QuietBudget(s, s', w);
  }

  // ---------------------------------------------------------------- whole runs

  ghost predicate IsRun(ss: seq<Sched>, es: seq<Event>) {
    |ss| == |es| + 1 && forall i :: 0 <= i < |es| ==> Step(ss[i], es[i], ss[i + 1])
  }

  /** How often the scheduler runs. */
  ghost function CallCount(ss: seq<Sched>, es: seq<Event>): nat
    requires IsRun(ss, es)
  {
    if es == [] then 0
    else
      assert Step(ss[0], es[0], ss[0 + 1]);
      (if Calls(ss[0], es[0]) then 1 else 0) + CallCount(ss[1..], es[1..])
  }

  lemma {:induction false} WaitWithinBudget(ss: seq<Sched>, es: seq<Event>, w: Slot)
    requires IsRun(ss, es) && Inv(ss[0])
    requires forall i :: 0 <= i < |ss| ==> Waiting(ss[i], w)
    ensures CallCount(ss, es) <= Budget(ss[0], w)
    decreases |es|
  {
    if es != [] {
      StepInv(ss[0], es[0], ss[1]);
      StepBudget(ss[0], es[0], ss[1], w);
      WaitWithinBudget(ss[1..], es[1..], w);
    }
  }

  /** The main theorem: a task that stays ready and is never chosen sees at most 62 runs of the scheduler;
      the 63rd at the latest chooses it. */
  lemma BoundedWait(ss: seq<Sched>, es: seq<Event>, w: Slot)
    requires IsRun(ss, es) && Inv(ss[0])
    requires forall i :: 0 <= i < |ss| ==> Waiting(ss[i], w)
    ensures CallCount(ss, es) <= 62
  {
    WaitWithinBudget(ss, es, w);
    var c: Slot :| ss[0].tasks[c] == Some(ss[0].current);
    AheadSize(ss[0], w, c);
  }

  // ---------------------------------------------------------------- reachable states

  /** The table at boot: `init_task` alone. */
  function Boot(): Sched {
    Sched(Empty(64)[0 := Some(INIT)], map[INIT := Task(0, None, 0, TaskRunning, 1, 0)], INIT, 1)
  }

  lemma BootInv()
    ensures Inv(Boot())
  {
    var s := Boot();
    EmptySlots(64);
    assert s.tasks[0] == Some(s.current);
    assert Children(s.structs, INIT) == {};
  }

  lemma {:induction false} EmptySlots(n: nat)
    ensures forall i :: 0 <= i < n ==> Empty(n)[i] == None
  {
    if n > 0 {
      EmptySlots(n - 1);
    }
  }

  /** The invariant, and with it equal priorities and exact child counts, holds in every reachable state. */
  lemma {:induction false} ReachableInv(ss: seq<Sched>, es: seq<Event>)
    requires IsRun(ss, es) && ss[0] == Boot()
    ensures forall i :: 0 <= i < |ss| ==> Inv(ss[i])
  {
    BootInv();
    InvAlong(ss, es);
  }

  lemma RunTail(ss: seq<Sched>, es: seq<Event>)
    requires IsRun(ss, es) && es != []
    ensures IsRun(ss[1..], es[1..])
  {
    forall i | 0 <= i < |es[1..]|
      ensures Step(ss[1..][i], es[1..][i], ss[1..][i + 1])
    {
      assert Step(ss[i + 1], es[i + 1], ss[i + 1 + 1]);
    }
  }

  lemma {:induction false} InvAlong(ss: seq<Sched>, es: seq<Event>)
    requires IsRun(ss, es) && Inv(ss[0])
    ensures forall i :: 0 <= i < |ss| ==> Inv(ss[i])
    decreases |es|
  {
    if es != [] {
      assert Step(ss[0], es[0], ss[0 + 1]);
      StepInv(ss[0], es[0], ss[1]);
      RunTail(ss, es);
      InvAlong(ss[1..], es[1..]);
      assert forall i :: 0 < i < |ss| ==> ss[i] == ss[1..][i - 1];
    }
  }

  /** A task struct is freed only when no surviving task's parent pointer names it. */
  lemma ExitLeavesNoOrphans(s: Sched, s': Sched)
    requires Inv(s) && Step(s, Exit, s')
    ensures s'.structs.Keys == s.structs.Keys - {s.current}
    ensures forall c :: c in s'.structs ==> s'.structs[c].parent != Some(s.current)
  {
    ExitedStructs(s);
    NoOrphans(s.structs, s.current);
  }
}
