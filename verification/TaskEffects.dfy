/** What the operations of task.c do to each task and to each slot, said without the search functions: which
    task changes, in which field, and that nothing else does. */
module TaskEffects {
  import opened Options
  import opened Scheduler
  import opened Searching

  // ---------------------------------------------------------------- which task is meant

  /** Slot `i` is the first whose task has the process ID. */
  ghost predicate First(s: Sched, i: Slot, pid: int) {
    HasPid(s, i, pid) && forall j: Slot :: j < i ==> !HasPid(s, j, pid)
  }

  ghost predicate Nobody(s: Sched, pid: int) { forall j: Slot :: !HasPid(s, j, pid) }

  lemma {:induction false} FindsFirst(s: Sched, pid: int, from: nat, i: Slot)
    requires from <= i && First(s, i, pid)
    ensures FindPid(s, pid, from) == Some(i)
    decreases 64 - from
  {
    if from < i { FindsFirst(s, pid, from + 1, i); }
  }

  lemma FindsNobody(s: Sched, pid: int)
    requires Nobody(s, pid)
    ensures FindPid(s, pid, 0).None?
  {}

  // ---------------------------------------------------------------- what changes

  /** The two structs differ at most in the state. */
  predicate OnlyState(a: Task, b: Task) {
    && b.pid == a.pid && b.parent == a.parent && b.childrenNo == a.childrenNo && b.priority == a.priority
    && b.counter == a.counter
  }

  /** Task `t` is in state `state` now; nothing else is different. */
  ghost predicate StateSet(s: Sched, s': Sched, t: Ref, state: RunState) {
    && s'.tasks == s.tasks && s'.current == s.current && s'.taskCount == s.taskCount
    && s'.structs.Keys == s.structs.Keys && t in s.structs
    && s'.structs[t].state == state && OnlyState(s.structs[t], s'.structs[t])
    && forall u :: u in s.structs && u != t ==> s'.structs[u] == s.structs[u]
  }

  lemma BlockedEffect(s: Sched, pid: int, state: RunState, i: Slot)
    ensures First(s, i, pid) ==> StateSet(s, Blocked(s, pid, state), s.tasks[i].value, state)
    ensures Nobody(s, pid) ==> Blocked(s, pid, state) == s
  {
    if First(s, i, pid) { FindsFirst(s, pid, 0, i); }
    if Nobody(s, pid) { FindsNobody(s, pid); }
  }

  /** `task_unblock` wakes the first task with the process ID if it is in the given state, and otherwise nobody. */
  lemma UnblockEffect(s: Sched, pid: int, state: RunState, s': Sched, i: Slot)
    requires Step(s, Unblock(pid, state), s')
    ensures First(s, i, pid) && s.structs[s.tasks[i].value].state == state ==>
      StateSet(s, s', s.tasks[i].value, TaskRunning)
    ensures First(s, i, pid) && s.structs[s.tasks[i].value].state != state ==> s' == s
    ensures Nobody(s, pid) ==> s' == s
  {
    if First(s, i, pid) { FindsFirst(s, pid, 0, i); }
    if Nobody(s, pid) { FindsNobody(s, pid); }
  }

  // ---------------------------------------------------------------- who runs next

  ghost predicate Listed(s: Sched, t: Ref) { exists i: Slot :: s.tasks[i] == Some(t) }

  /** What a task has when the choice is made: the running task starts from nothing, and every task in the table
      gets its priority. */
  ghost function Credit(s: Sched, t: Ref): int
    requires t in s.structs
  {
    (if t == s.current then 0 else s.structs[t].counter) + if Listed(s, t) then s.structs[t].priority else 0
  }

  ghost predicate Ready(s: Sched, i: Slot) {
    && s.tasks[i].Some? && s.tasks[i].value in s.structs
    && s.structs[s.tasks[i].value].state == TaskRunning && Credit(s, s.tasks[i].value) >= 0
  }

  /** Slot `k` is chosen: nobody who is ready has more credit, and nobody before it as much.  Slot 0 if nobody
      is ready. */
  ghost predicate Chosen(s: Sched, k: Slot) {
    && s.tasks[k].Some? && s.tasks[k].value in s.structs
    && ((forall i: Slot :: !Ready(s, i)) ==> k == 0)
    && ((exists i: Slot :: Ready(s, i)) ==> Ready(s, k))
    && forall i: Slot :: Ready(s, i) ==>
         var mine, other := Credit(s, s.tasks[k].value), Credit(s, s.tasks[i].value);
         other <= mine && (i < k ==> other < mine)
  }

  /** The two structs differ at most in the counter. */
  predicate OnlyCounter(a: Task, b: Task) {
    && b.pid == a.pid && b.parent == a.parent && b.childrenNo == a.childrenNo && b.priority == a.priority
    && b.state == a.state
  }

  lemma ListedIn(s: Sched, t: Ref)
    ensures Listed(s, t) <==> Some(t) in s.tasks
  {
    if Some(t) in s.tasks {
      var j :| 0 <= j < |s.tasks| && s.tasks[j] == Some(t);
      var k: Slot := j;
      assert s.tasks[k] == Some(t);
    }
  }

  lemma CreditIs(s: Sched, t: Ref)
    requires t in s.structs
    ensures t in Credited(s).structs && Credited(s).structs[t].counter == Credit(s, t)
    ensures OnlyCounter(s.structs[t], Credited(s).structs[t])
  {
    ListedIn(s, t);
  }

  lemma ReadyIs(s: Sched, i: Slot)
    ensures Eligible(Credited(s), i) <==> Ready(s, i)
    ensures Ready(s, i) ==> CounterAt(Credited(s), i) == Credit(s, s.tasks[i].value)
  {
    if s.tasks[i].Some? && s.tasks[i].value in s.structs { CreditIs(s, s.tasks[i].value); }
  }

  lemma BestIs(s: Sched, k: Slot)
    requires Best(Credited(s), k) && s.tasks[k].Some? && s.tasks[k].value in s.structs
    ensures Chosen(s, k)
  {
    forall i: Slot
      ensures Eligible(Credited(s), i) <==> Ready(s, i)
      ensures Ready(s, i) ==> CounterAt(Credited(s), i) == Credit(s, s.tasks[i].value)
    {
      ReadyIs(s, i);
    }
    if i: Slot :| Ready(s, i) { assert Eligible(Credited(s), i); }
    if i: Slot :| Eligible(Credited(s), i) { assert Ready(s, i); }
  }

  /** What `task_schedule` changes: everybody's counter is the credit, but for the chosen task, which runs now and
      starts with its priority. */
  ghost predicate RunsNext(s: Sched, s': Sched, k: Slot) {
    && Chosen(s, k) && s'.tasks == s.tasks && s'.taskCount == s.taskCount && s'.structs.Keys == s.structs.Keys
    && s.tasks[k] == Some(s'.current)
    && forall t :: t in s.structs ==>
         && OnlyCounter(s.structs[t], s'.structs[t])
         && s'.structs[t].counter == if t == s'.current then s.structs[t].priority else Credit(s, t)
  }

  lemma ScheduleEffect(s: Sched, s': Sched) returns (k: Slot)
    requires Schedules(s, s')
    ensures RunsNext(s, s', k)
  {
    k :| Best(Credited(s), k) && SwitchesTo(Credited(s), k, s');
    BestIs(s, k);
    forall t | t in s.structs
      ensures OnlyCounter(s.structs[t], s'.structs[t])
      ensures s'.structs[t].counter == if t == s'.current then s.structs[t].priority else Credit(s, t)
    {
      CreditIs(s, t);
    }
  }

  // ---------------------------------------------------------------- steps

  /** `task_tick` takes one from the counter of the running task; when nothing is left and the task may be
      interrupted, it has the effect of `task_schedule`. */
  lemma TickEffect(s: Sched, preempted: bool, s': Sched) returns (k: Slot)
    requires Step(s, Tick(preempted), s')
    ensures s.structs[s.current].counter > 1 || preempted ==>
      && s'.tasks == s.tasks && s'.current == s.current && s'.taskCount == s.taskCount
      && s'.structs.Keys == s.structs.Keys
      && s'.structs[s.current].counter == s.structs[s.current].counter - 1
      && OnlyCounter(s.structs[s.current], s'.structs[s.current])
      && forall u :: u in s.structs && u != s.current ==> s'.structs[u] == s.structs[u]
    ensures s.structs[s.current].counter <= 1 && !preempted ==> RunsNext(s, s', k)
  {
    k := 0;
    if s.structs[s.current].counter <= 1 && !preempted {
      assert Credited(Ticked(s)).structs == Credited(s).structs;
      assert Credited(Ticked(s)) == Credited(s);
      k := ScheduleEffect(s, s');
    }
  }

  /** `task_block` sets the state of the first task with the process ID, and nobody else's; then the scheduler chooses. */
  lemma BlockEffect(s: Sched, pid: int, state: RunState, s': Sched, i: Slot) returns (k: Slot)
    requires Step(s, Block(pid, state), s') && First(s, i, pid)
    ensures var t := s.tasks[i].value;
            && s'.structs.Keys == s.structs.Keys && s'.tasks == s.tasks
            && s'.structs[t].state == state
            && forall u :: u in s.structs && u != t ==> s'.structs[u].state == s.structs[u].state
    ensures RunsNext(Blocked(s, pid, state), s', k)
  {
    BlockedEffect(s, pid, state, i);
    k := ScheduleEffect(Blocked(s, pid, state), s');
  }

  /** A blocked task does not run while anybody else is ready. */
  lemma BlockedDoesNotRun(s: Sched, pid: int, state: RunState, s': Sched, i: Slot, j: Slot)
    requires Inv(s) && Step(s, Block(pid, state), s') && First(s, i, pid) && state != TaskRunning
    requires j != i && s.tasks[j].Some? && s.structs[s.tasks[j].value].state == TaskRunning
    ensures Some(s'.current) != s.tasks[i] && s'.structs[s'.current].state == TaskRunning
  {
    var b := Blocked(s, pid, state);
    BlockedEffect(s, pid, state, i);
    var k := BlockEffect(s, pid, state, s', i);
    assert s.tasks[j].value != s.tasks[i].value;
    assert Listed(b, s.tasks[j].value);
    assert Ready(b, j);
  }

  /** With nobody ready the first task runs, whatever its state. */
  lemma NobodyReady(s: Sched, pid: int, state: RunState, s': Sched, i: Slot)
    requires Inv(s) && Step(s, Block(pid, state), s') && First(s, i, pid)
    requires forall j: Slot :: s.tasks[j].Some? && s.structs[s.tasks[j].value].state == TaskRunning ==> j == i
    requires state != TaskRunning
    ensures s'.current == INIT
  {
    var b := Blocked(s, pid, state);
    BlockedEffect(s, pid, state, i);
    var k := BlockEffect(s, pid, state, s', i);
    forall j: Slot
      ensures !Ready(b, j)
    {
    }
  }

  /** Which events run the scheduler, and so count in the bound on waiting. */
  lemma CallsIff(s: Sched, e: Event)
    requires s.current in s.structs
    ensures Calls(s, e) <==>
      e.Schedule? || e.Block? || (e.Tick? && s.structs[s.current].counter <= 1 && !e.preempted)
  {}

  // ---------------------------------------------------------------- the table

  /** A task goes into the least empty slot; a full table stays as it is. */
  lemma {:induction false} AddEffect(tasks: Slots, t: Ref, i: nat)
    requires i <= 64 && forall j: Slot :: j < i ==> tasks[j].Some?
    ensures var r := Added(tasks, t, i);
            && (r == tasks <==> forall j: Slot :: tasks[j].Some?)
            && (forall k: Slot :: tasks[k].None? && (forall j: Slot :: j < k ==> tasks[j].Some?) ==>
                  r == tasks[k := Some(t)])
    decreases 64 - i
  {
    if i < 64 {
      var k: Slot := i;
      if tasks[k].Some? {
        AddEffect(tasks, t, i + 1);
      } else {
        assert Added(tasks, t, i)[k] == Some(t);
      }
    }
  }

  /** The first slot that holds the task is emptied; if there is none, nothing changes. */
  lemma {:induction false} RemoveEffect(tasks: Slots, t: Ref, i: nat)
    requires i <= 64 && forall j: Slot :: j < i ==> tasks[j] != Some(t)
    ensures var r := Removed(tasks, t, i);
            && (r == tasks <==> forall j: Slot :: tasks[j] != Some(t))
            && (forall k: Slot :: tasks[k] == Some(t) && (forall j: Slot :: j < k ==> tasks[j] != Some(t)) ==>
                  r == tasks[k := None])
    decreases 64 - i
  {
    if i < 64 {
      var k: Slot := i;
      if tasks[k] != Some(t) {
        RemoveEffect(tasks, t, i + 1);
      } else {
        assert Removed(tasks, t, i)[k] == None;
      }
    }
  }

  /** `task_fork`: the child has the next process ID, the state, the priority and a counter from its parent, and no
      children; the parent has one child more; the child is in the least empty slot, if there is one. */
  lemma ForkEffect(s: Sched, child: Ref, s': Sched)
    requires Step(s, Fork(child), s')
    ensures s'.structs.Keys == s.structs.Keys + {child} && s'.current == s.current && s'.taskCount == s.taskCount + 1
    ensures var t, c := s.structs[s.current], s'.structs[child];
            && c.pid == s'.taskCount && c.parent == Some(s.current) && c.childrenNo == 0
            && c.state == t.state && c.priority == t.priority && c.counter == t.priority
    ensures var t, t' := s.structs[s.current], s'.structs[s.current];
            && t'.childrenNo == t.childrenNo + 1 && t'.pid == t.pid && t'.parent == t.parent && t'.state == t.state
            && t'.priority == t.priority && t'.counter == t.counter
    ensures forall u :: u in s.structs && u != s.current ==> s'.structs[u] == s.structs[u]
    ensures s'.tasks == s.tasks <==> forall j: Slot :: s.tasks[j].Some?
    ensures forall k: Slot :: s.tasks[k].None? && (forall j: Slot :: j < k ==> s.tasks[j].Some?) ==>
              s'.tasks == s.tasks[k := Some(child)]
  {
    AddEffect(s.tasks, child, 0);
  }

  /** Task `u` is the first in the table that has the process ID. */
  ghost predicate FirstIs(s: Sched, pid: int, u: Ref) { exists i: Slot :: First(s, i, pid) && s.tasks[i] == Some(u) }

  lemma {:induction false} FirstOrNobody(s: Sched, pid: int, from: nat)
    requires from <= 64 && forall j: Slot :: j < from ==> !HasPid(s, j, pid)
    ensures Nobody(s, pid) || exists i: Slot :: First(s, i, pid)
    decreases 64 - from
  {
    if from < 64 && !HasPid(s, from, pid) {
      FirstOrNobody(s, pid, from + 1);
    } else if from < 64 {
      assert First(s, from, pid);
    }
  }

  /** The first task that has the process ID runs again if it is in the given state; nobody else changes. */
  lemma UnblockedEffect(s: Sched, pid: int, state: RunState)
    ensures var s' := Unblocked(s, pid, state);
            && s'.tasks == s.tasks && s'.current == s.current && s'.taskCount == s.taskCount
            && s'.structs.Keys == s.structs.Keys
            && forall u :: u in s.structs ==>
                 && OnlyState(s.structs[u], s'.structs[u])
                 && s'.structs[u].state ==
                    if FirstIs(s, pid, u) && s.structs[u].state == state then TaskRunning else s.structs[u].state
  {
    FirstOrNobody(s, pid, 0);
    if Nobody(s, pid) {
      FindsNobody(s, pid);
    } else {
      var i: Slot :| First(s, i, pid);
      FindsFirst(s, pid, 0, i);
    }
  }

  lemma LeftTable(s: Sched, s': Sched)
    requires TableOk(s) && s'.tasks == Removed(s.tasks, s.current, 0)
    ensures forall j: Slot :: s'.tasks[j] == if s.tasks[j] == Some(s.current) then None else s.tasks[j]
  {
    RemoveEffect(s.tasks, s.current, 0);
    var k: Slot :| s.tasks[k] == Some(s.current);
    assert s'.tasks == s.tasks[k := None];
  }

  /** What becomes of task `u` when the current task exits. */
  predicate AfterExit(a: Task, b: Task, parent: bool, woken: bool) {
    && b.childrenNo == a.childrenNo - (if parent then 1 else 0)
    && b.state == (if woken && a.state == TaskWaiting then TaskRunning else a.state)
    && b.pid == a.pid && b.parent == a.parent && b.priority == a.priority && b.counter == a.counter
  }

  lemma LeftStructs(s: Sched)
    requires MayExit(s)
    ensures var s', p := Exited(s), s.structs[s.current].parent.value;
            && s'.structs.Keys == s.structs.Keys - {s.current}
            && forall u :: u in s'.structs ==>
                 AfterExit(s.structs[u], s'.structs[u], u == p, FirstIs(s, s.structs[p].pid, u))
  {
    var p := s.structs[s.current].parent.value;
    var c, pid := ChildLess(s, p), s.structs[p].pid;
    forall u
      ensures FirstIs(c, pid, u) <==> FirstIs(s, pid, u)
    {
      SameFirst(s, c, pid, u);
    }
    UnblockedEffect(c, pid, TaskWaiting);
  }

  lemma SameFirst(s: Sched, c: Sched, pid: int, u: Ref)
    requires c.tasks == s.tasks && forall j: Slot :: HasPid(c, j, pid) <==> HasPid(s, j, pid)
    ensures FirstIs(c, pid, u) <==> FirstIs(s, pid, u)
  {
    forall i: Slot
      ensures First(c, i, pid) <==> First(s, i, pid)
    {
    }
  }

  /** `task_exit`: the task is gone from the table and from memory, its parent has one child less, and the first task
      that has the process ID of the parent runs again if it waits; nobody else changes, and the first task runs. */
  lemma ExitEffect(s: Sched, s': Sched)
    requires TableOk(s) && Step(s, Exit, s')
    ensures s'.structs.Keys == s.structs.Keys - {s.current} && s'.current == INIT && s'.taskCount == s.taskCount
    ensures forall j: Slot :: s'.tasks[j] == if s.tasks[j] == Some(s.current) then None else s.tasks[j]
    ensures var p := s.structs[s.current].parent.value;
            forall u :: u in s'.structs ==>
              AfterExit(s.structs[u], s'.structs[u], u == p, FirstIs(s, s.structs[p].pid, u))
  {
    ExitedStructs(s);
    LeftTable(s, s');
    LeftStructs(s);
  }

  /** Process IDs are distinct in every reachable state, so it is the parent that is woken. */
  lemma ParentIs(s: Sched, p: Ref, u: Ref)
    requires PidsOk(s) && p in s.structs && Listed(s, p)
    ensures FirstIs(s, s.structs[p].pid, u) <==> u == p
  {
    var k: Slot :| s.tasks[k] == Some(p);
    FirstOrNobody(s, s.structs[p].pid, 0);
    assert HasPid(s, k, s.structs[p].pid);
    var i: Slot :| First(s, i, s.structs[p].pid);
    assert s.tasks[i] == Some(p);
  }
}
