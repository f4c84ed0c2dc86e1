/** Task table and scheduler as a state machine (task.c).

    Tasks are named by the address of their `struct task`.  Between two context switches
    the kernel is not interrupted, so each operation up to the next switch is one step. */
module Scheduler {
  import opened Options

  type Ref = nat

  datatype RunState = TaskRunning | TaskBlocked | TaskWaiting

  datatype Task = Task(pid: int, parent: Option<Ref>, childrenNo: int, state: RunState, priority: int, counter: int)

  const TASK_TOTAL := 64

  type Slots = t: seq<Option<Ref>> | |t| == 64 witness Empty(64)

  function Empty(n: nat): (s: seq<Option<Ref>>)
    ensures |s| == n
  {
    if n == 0 then [] else Empty(n - 1) + [None]
  }

  type Slot = i: nat | i < 64

  /** `tasks`, the task structs in memory, `current_task` and `task_count`. */
  datatype Sched = Sched(tasks: Slots, structs: map<Ref, Task>, current: Ref, taskCount: int)

  const INIT: Ref := 0

  // ---------------------------------------------------------------- the invariant

  ghost predicate InTable(s: Sched, t: Ref) {
    exists i: Slot :: s.tasks[i] == Some(t)
  }

  type Structs = map<Ref, Task>

  function Children(m: Structs, t: Ref): set<Ref> {
    set c | c in m && m[c].parent == Some(t)
  }

  /** The table holds existing tasks, each once; the first task never leaves slot 0. */
  ghost predicate TableOk(s: Sched) {
    && (forall i: Slot :: s.tasks[i].Some? ==> s.tasks[i].value in s.structs)
    && (forall i: Slot, j: Slot :: s.tasks[i].Some? && s.tasks[i] == s.tasks[j] ==> i == j)
    && s.tasks[0] == Some(INIT)
    && InTable(s, s.current)
  }

  /** All priorities are equal, and whoever waits in the table has credit. */
  ghost predicate CreditOk(s: Sched) {
    && (forall t :: t in s.structs ==> s.structs[t].priority == 1)
    && (forall i: Slot :: s.tasks[i].Some? && s.tasks[i].value != s.current && s.tasks[i].value in s.structs ==>
          s.structs[s.tasks[i].value].counter >= 1)
  }

  /** `children_no` counts exactly the children that exist, and parents outlive their children. */
  ghost predicate FamilyOk(m: Structs) {
    && (forall t :: t in m ==> m[t].childrenNo == |Children(m, t)|)
    && (forall t :: t in m && m[t].parent.Some? ==> m[t].parent.value in m)
    && (forall t :: t in m ==> (m[t].parent == None <==> t == INIT))
  }

  ghost predicate Inv(s: Sched) {
    TableOk(s) && CreditOk(s) && FamilyOk(s.structs)
  }

  // ---------------------------------------------------------------- scheduling

  /** Everybody in the table gets credit; the running task starts again from nothing. */
  function Credited(s: Sched): Sched
  {
    s.(structs := map t | t in s.structs ::
      var base := if t == s.current then 0 else s.structs[t].counter;
      s.structs[t].(counter := if Some(t) in s.tasks then base + s.structs[t].priority else base))
  }

  /** The slot can be chosen. */
  predicate Eligible(s: Sched, i: Slot) {
    && s.tasks[i].Some? && s.tasks[i].value in s.structs
    && s.structs[s.tasks[i].value].state == TaskRunning && s.structs[s.tasks[i].value].counter > -1
  }

  function CounterAt(s: Sched, i: Slot): int
    requires s.tasks[i].Some? && s.tasks[i].value in s.structs
  {
    s.structs[s.tasks[i].value].counter
  }

  /** The chosen slot: the first with the highest counter among the eligible, or slot 0. */
  ghost predicate Best(s: Sched, k: Slot) {
    if exists i: Slot :: Eligible(s, i) then
      && Eligible(s, k)
      && (forall i: Slot :: Eligible(s, i) ==> CounterAt(s, i) <= CounterAt(s, k))
      && (forall i: Slot :: Eligible(s, i) && i < k ==> CounterAt(s, i) < CounterAt(s, k))
    else k == 0
  }

  function Switched(s: Sched, k: Slot): Sched
    requires s.tasks[k].Some? && s.tasks[k].value in s.structs
  {
    var t := s.tasks[k].value;
    s.(structs := s.structs[t := s.structs[t].(counter := s.structs[t].priority)], current := t)
  }

  /** `task_schedule` */
  ghost predicate Schedules(s: Sched, s': Sched) {
    exists k: Slot :: Best(Credited(s), k) && SwitchesTo(Credited(s), k, s')
  }

  ghost predicate SwitchesTo(s: Sched, k: Slot, s': Sched) {
    s.tasks[k].Some? && s.tasks[k].value in s.structs && s' == Switched(s, k)
  }

  // ---------------------------------------------------------------- the other operations

  /** The search of `task_block` and `task_unblock` reads every slot up to the one it finds: no empty
      slot may come first. */
  ghost predicate Searchable(s: Sched, pid: int) {
    forall i: Slot :: s.tasks[i].None? ==> exists j: Slot :: j < i && HasPid(s, j, pid)
  }

  predicate HasPid(s: Sched, i: Slot, pid: int) {
    s.tasks[i].Some? && s.tasks[i].value in s.structs && s.structs[s.tasks[i].value].pid == pid
  }

  /** The first slot from `i` on whose task has the process ID. */
  function FindPid(s: Sched, pid: int, i: nat): (r: Option<Slot>)
    requires i <= 64
    ensures r.Some? ==> HasPid(s, r.value, pid)
    decreases 64 - i
  {
    if i == 64 then None
    else if HasPid(s, i, pid) then Some(i)
    else FindPid(s, pid, i + 1)
  }

  function WithState(s: Sched, i: Slot, state: RunState): Sched
    requires s.tasks[i].Some? && s.tasks[i].value in s.structs
  {
    var t := s.tasks[i].value;
    s.(structs := s.structs[t := s.structs[t].(state := state)])
  }

  /** First half of `task_block`. */
  function Blocked(s: Sched, pid: int, state: RunState): Sched {
    match FindPid(s, pid, 0)
    case None => s
    case Some(i) => WithState(s, i, state)
  }

  /** `task_unblock` */
  function Unblocked(s: Sched, pid: int, state: RunState): Sched {
    match FindPid(s, pid, 0)
    case None => s
    case Some(i) => if s.structs[s.tasks[i].value].state == state then WithState(s, i, TaskRunning) else s
  }

  /** First half of `task_tick`. */
  function Ticked(s: Sched): Sched
    requires s.current in s.structs
  {
    var t := s.structs[s.current];
    s.(structs := s.structs[s.current := t.(counter := t.counter - 1)])
  }

  /** `task_add`: the first empty slot, if there is one. */
  function Added(tasks: Slots, t: Ref, i: nat): Slots
    requires i <= 64
    decreases 64 - i
  {
    if i == 64 then tasks
    else if tasks[i].None? then tasks[i := Some(t)]
    else Added(tasks, t, i + 1)
  }

  /** `task_remove` */
  function Removed(tasks: Slots, t: Ref, i: nat): Slots
    requires i <= 64
    decreases 64 - i
  {
    if i == 64 then tasks
    else if tasks[i] == Some(t) then tasks[i := None]
    else Removed(tasks, t, i + 1)
  }

  /** What `task_fork` does to the table of tasks; `child` is the address of the page for the new struct. */
  function Forked(s: Sched, child: Ref): Sched
    requires s.current in s.structs && child !in s.structs
  {
    var t := s.structs[s.current];
    Sched(Added(s.tasks, child, 0),
          s.structs[child := Task(s.taskCount + 1, Some(s.current), 0, t.state, t.priority, t.priority)]
                   [s.current := t.(childrenNo := t.childrenNo + 1)],
          s.current, s.taskCount + 1)
  }

  /** First part of the end of `task_exit`: the parent has one child less. */
  function ChildLess(s: Sched, p: Ref): Sched
    requires p in s.structs
  {
    s.(structs := s.structs[p := s.structs[p].(childrenNo := s.structs[p].childrenNo - 1)])
  }

  /** Last part: the struct is freed, and the first task runs. */
  function Left(s: Sched): Sched {
    Sched(Removed(s.tasks, s.current, 0), s.structs - {s.current}, INIT, s.taskCount)
  }

  /** `task_exit` once there are no children left; in between the parent may stop waiting. */
  function Exited(s: Sched): Sched
    requires s.current in s.structs && s.structs[s.current].parent.Some? && s.structs[s.current].parent.value in s.structs
  {
    var p := s.structs[s.current].parent.value;
    Left(Unblocked(ChildLess(s, p), s.structs[p].pid, TaskWaiting))
  }

  // ---------------------------------------------------------------- steps

  datatype Event =
    | Schedule
    | Tick(preempted: bool)
    | Block(pid: int, state: RunState)
    | Unblock(pid: int, state: RunState)
    | Fork(child: Ref)
    | Exit

  /** Whether the event runs the scheduler. */
  ghost predicate Calls(s: Sched, e: Event)
    requires s.current in s.structs
  {
    match e
    case Schedule => true
    case Tick(preempted) => s.structs[s.current].counter - 1 <= 0 && !preempted
    case Block(_, _) => true
    case _ => false
  }

  ghost predicate Step(s: Sched, e: Event, s': Sched) {
    && s.current in s.structs
    && match e
       case Schedule => Schedules(s, s')
       case Tick(_) => if Calls(s, e) then Schedules(Ticked(s), s') else s' == Ticked(s)
       case Block(pid, state) => Searchable(s, pid) && Schedules(Blocked(s, pid, state), s')
       case Unblock(pid, state) => Searchable(s, pid) && s' == Unblocked(s, pid, state)
       case Fork(child) => child !in s.structs && s' == Forked(s, child)
       case Exit =>
         && s.structs[s.current].childrenNo <= 0
         && s.structs[s.current].parent.Some? && s.structs[s.current].parent.value in s.structs
         && Searchable(s, s.structs[s.structs[s.current].parent.value].pid)
         && s' == Exited(s)
  }

  // ---------------------------------------------------------------- the invariant holds in every reachable state

  /** Changes of states and counters touch neither the table nor the families. */
  ghost predicate SameFamilies(s: Sched, s': Sched) {
    && s'.tasks == s.tasks && s'.structs.Keys == s.structs.Keys
    && forall t :: t in s.structs ==>
         var a, b := s.structs[t], s'.structs[t];
         b.parent == a.parent && b.childrenNo == a.childrenNo && b.priority == a.priority && b.pid == a.pid
  }

  lemma SameFamiliesOk(s: Sched, s': Sched)
    requires SameFamilies(s, s') && FamilyOk(s.structs)
    ensures FamilyOk(s'.structs)
  {
    forall t
      ensures Children(s'.structs, t) == Children(s.structs, t)
    {
    }
  }

  lemma CreditedOk(s: Sched)
    requires Inv(s)
    ensures SameFamilies(s, Credited(s)) && Inv(Credited(s))
    ensures forall i: Slot :: s.tasks[i].Some? ==>
      CounterAt(Credited(s), i) == if s.tasks[i] == Some(s.current) then 1 else CounterAt(s, i) + 1
  {
    SameFamiliesOk(s, Credited(s));
    assert forall i: Slot :: s.tasks[i].Some? ==> s.tasks[i] in s.tasks;
  }

  lemma SwitchedInv(s: Sched, k: Slot)
    requires TableOk(s) && FamilyOk(s.structs) && s.tasks[k].Some?
    requires forall t :: t in s.structs ==> s.structs[t].priority == 1
    requires forall i: Slot :: s.tasks[i].Some? ==> CounterAt(s, i) >= 1
    ensures Inv(Switched(s, k))
  {
    var s' := Switched(s, k);
    SameFamiliesOk(s, s');
    assert s'.tasks[k] == Some(s'.current);
  }

  lemma SchedulesInv(s: Sched, s': Sched)
    requires Inv(s) && Schedules(s, s')
    ensures Inv(s')
  {
    CreditedOk(s);
    var k: Slot :| Best(Credited(s), k) && SwitchesTo(Credited(s), k, s');
    forall i: Slot | s.tasks[i].Some?
      ensures CounterAt(Credited(s), i) >= 1
    {
    }
    SwitchedInv(Credited(s), k);
  }

  lemma StateInv(s: Sched, i: Slot, state: RunState)
    requires Inv(s) && s.tasks[i].Some?
    ensures Inv(WithState(s, i, state)) && SameFamilies(s, WithState(s, i, state))
  {
    SameFamiliesOk(s, WithState(s, i, state));
  }

  lemma BlockedInv(s: Sched, pid: int, state: RunState)
    requires Inv(s)
    ensures Inv(Blocked(s, pid, state)) && Inv(Unblocked(s, pid, state))
  {
    if FindPid(s, pid, 0).Some? {
      StateInv(s, FindPid(s, pid, 0).value, state);
      StateInv(s, FindPid(s, pid, 0).value, TaskRunning);
    }
  }

  lemma TickedInv(s: Sched)
    requires Inv(s)
    ensures s.current in s.structs && Inv(Ticked(s))
  {
    SameFamiliesOk(s, Ticked(s));
  }

  lemma {:induction false} AddedSlots(tasks: Slots, t: Ref, i: nat)
    requires i <= 64
    ensures Added(tasks, t, i) == tasks ||
            exists k: Slot :: k >= i && tasks[k].None? && Added(tasks, t, i) == tasks[k := Some(t)]
    decreases 64 - i
  {
    if i < 64 && tasks[i].Some? {
      AddedSlots(tasks, t, i + 1);
    }
  }

  lemma {:induction false} RemovedSlots(tasks: Slots, t: Ref, i: nat)
    requires i <= 64
    ensures (exists k: Slot :: k >= i && tasks[k] == Some(t) && Removed(tasks, t, i) == tasks[k := None])
         || (Removed(tasks, t, i) == tasks && forall k: Slot :: k >= i ==> tasks[k] != Some(t))
    decreases 64 - i
  {
    if i < 64 && tasks[i] != Some(t) {
      RemovedSlots(tasks, t, i + 1);
    }
  }

  /** `m'` has one task more, a child of `parent`. */
  ghost predicate NewChild(m: Structs, m': Structs, parent: Ref, child: Ref) {
    && parent in m && child !in m && m'.Keys == m.Keys + {child}
    && m'[child].parent == Some(parent) && m'[child].childrenNo == 0
    && forall t :: t in m ==>
         && m'[t].parent == m[t].parent
         && m'[t].childrenNo == m[t].childrenNo + if t == parent then 1 else 0
  }

  lemma NewChildCount(m: Structs, m': Structs, parent: Ref, child: Ref, t: Ref)
    requires FamilyOk(m) && NewChild(m, m', parent, child)
    ensures |Children(m', t)| == |Children(m, t)| + if t == parent then 1 else 0
    ensures t == child ==> Children(m', t) == {}
  {
    assert child !in Children(m, t);
    if t == parent {
      assert Children(m', t) == Children(m, t) + {child};
    } else {
      assert Children(m', t) == Children(m, t);
    }
  }

  lemma ForkedFamily(m: Structs, m': Structs, parent: Ref, child: Ref)
    requires FamilyOk(m) && NewChild(m, m', parent, child) && INIT in m
    ensures FamilyOk(m')
  {
    forall t | t in m'
      ensures m'[t].childrenNo == |Children(m', t)|
    {
      NewChildCount(m, m', parent, child, t);
    }
  }

  lemma ForkedInv(s: Sched, child: Ref)
    requires Inv(s) && child !in s.structs
    ensures s.current in s.structs && Inv(Forked(s, child))
  {
    ForkedFamilyOk(s, child);
    ForkedTableOk(s, child);
  }

  lemma ForkedFamilyOk(s: Sched, child: Ref)
    requires TableOk(s) && FamilyOk(s.structs) && child !in s.structs
    ensures FamilyOk(Forked(s, child).structs)
  {
    var s' := Forked(s, child);
    assert NewChild(s.structs, s'.structs, s.current, child);
    ForkedFamily(s.structs, s'.structs, s.current, child);
  }

  lemma ForkedTableOk(s: Sched, child: Ref)
    requires TableOk(s) && CreditOk(s) && child !in s.structs
    ensures TableOk(Forked(s, child)) && CreditOk(Forked(s, child))
  {
    AddedSlots(s.tasks, child, 0);
    ForkedTable(s, Forked(s, child), child);
  }

  lemma ForkedTable(s: Sched, s': Sched, child: Ref)
    requires TableOk(s) && CreditOk(s) && child !in s.structs && s'.structs.Keys == s.structs.Keys + {child}
    requires s'.current == s.current && s'.structs[child].priority == s'.structs[child].counter == 1
    requires forall t :: t in s.structs ==>
      s'.structs[t].priority == s.structs[t].priority && s'.structs[t].counter == s.structs[t].counter
    requires s'.tasks == s.tasks || exists k: Slot :: s.tasks[k].None? && s'.tasks == s.tasks[k := Some(child)]
    ensures TableOk(s') && CreditOk(s')
  {
    var kc: Slot :| s.tasks[kc] == Some(s.current);
    assert s'.tasks[kc] == Some(s'.current);
  }

  lemma RemoveOne<T>(s: set<T>, x: T)
    requires x in s
    ensures |s - {x}| == |s| - 1
  {
    assert s == (s - {x}) + {x};
  }

  /** When a task exits nobody is left whose parent it is. */
  lemma NoOrphans(m: Structs, t: Ref)
    requires FamilyOk(m) && t in m && m[t].childrenNo <= 0
    ensures forall c :: c in m ==> m[c].parent != Some(t)
  {
    forall c | c in m
      ensures m[c].parent != Some(t)
    {
      assert c in Children(m, t) <==> m[c].parent == Some(t);
    }
  }

  lemma ExitedFamily(m: Structs, m': Structs, t: Ref, parent: Ref)
    requires FamilyOk(m) && t in m && m[t].childrenNo <= 0 && m[t].parent == Some(parent) && INIT in m
    requires m'.Keys == m.Keys - {t}
    requires forall u :: u in m' ==>
      && m'[u].parent == m[u].parent
      && m'[u].childrenNo == m[u].childrenNo - if u == parent then 1 else 0
    ensures FamilyOk(m') && t != INIT && parent != t
  {
    NoOrphans(m, t);
    assert t in Children(m, parent);
    RemoveOne(Children(m, parent), t);
    forall u
      ensures Children(m', u) == if u == parent then Children(m, u) - {t} else Children(m, u)
    {
    }
  }

  ghost predicate MayExit(s: Sched) {
    && s.current in s.structs && s.structs[s.current].childrenNo <= 0
    && s.structs[s.current].parent.Some? && s.structs[s.current].parent.value in s.structs
  }

  lemma ExitedStructs(s: Sched)
    requires MayExit(s)
    ensures var s' := Exited(s);
            var p := s.structs[s.current].parent.value;
            && s'.structs.Keys == s.structs.Keys - {s.current}
            && s'.tasks == Removed(s.tasks, s.current, 0)
            && forall u :: u in s'.structs ==>
                 var a, b := s.structs[u], s'.structs[u];
                 && b.parent == a.parent && b.priority == a.priority && b.counter == a.counter
                 && b.childrenNo == a.childrenNo - (if u == p then 1 else 0)
                 && (a.state == TaskRunning ==> b.state == TaskRunning)
  {
  }

  lemma ExitedTable(s: Sched, s': Sched)
    requires TableOk(s) && CreditOk(s) && s.current != INIT && s'.current == INIT
    requires s'.structs.Keys == s.structs.Keys - {s.current}
    requires forall t :: t in s'.structs ==>
      s'.structs[t].priority == s.structs[t].priority && s'.structs[t].counter == s.structs[t].counter
    requires exists k: Slot :: s.tasks[k] == Some(s.current) && s'.tasks == s.tasks[k := None]
    ensures TableOk(s') && CreditOk(s')
  {
    assert s'.tasks[0] == Some(INIT);
  }

  lemma ExitedInv(s: Sched)
    requires Inv(s) && MayExit(s)
    ensures Inv(Exited(s))
  {
    ExitedStructs(s);
    ExitedFamily(s.structs, Exited(s).structs, s.current, s.structs[s.current].parent.value);
    RemovedSlots(s.tasks, s.current, 0);
    ExitedTable(s, Exited(s));
  }

  lemma StepInv(s: Sched, e: Event, s': Sched)
    requires Inv(s) && Step(s, e, s')
    ensures Inv(s')
  {
    match e
    case Schedule => SchedulesInv(s, s');
    case Tick(_) =>
      TickedInv(s);
      if Calls(s, e) {
        SchedulesInv(Ticked(s), s');
      }
    case Block(pid, state) =>
      BlockedInv(s, pid, state);
      SchedulesInv(Blocked(s, pid, state), s');
    case Unblock(pid, state) => BlockedInv(s, pid, state);
    case Fork(child) => ForkedInv(s, child);
    case Exit => ExitedInv(s);
  }
}
