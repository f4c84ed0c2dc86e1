/** The code of task.c, with its global variables as the fields of an object.  Every function
    changes the table exactly as the state machine of module Scheduler says. */
module Tasks {
  import opened Options
  import opened Scheduler

  /** The structs after the first `n` slots have been given credit. */
  ghost predicate CreditedUpTo(s: Sched, structs: Structs, n: nat) {
    && structs.Keys == s.structs.Keys
    && forall t :: t in structs ==>
         structs[t] ==
         if exists j: Slot :: j < n && s.tasks[j] == Some(t) then Credited(s).structs[t]
         else s.structs[t].(counter := if t == s.current then 0 else s.structs[t].counter)
  }

  /** The choice among the first `n` slots. */
  ghost predicate BestUpTo(c: Sched, n: nat, index: Slot, counter: int) {
    if exists j: Slot :: j < n && Eligible(c, j) then
      && index < n && Eligible(c, index) && counter == CounterAt(c, index)
      && (forall j: Slot :: j < n && Eligible(c, j) ==> CounterAt(c, j) <= counter)
      && (forall j: Slot :: j < index && Eligible(c, j) ==> CounterAt(c, j) < counter)
    else index == 0 && counter == -1
  }

  lemma CreditNext(s: Sched, structs: Structs, n: Slot, structs': Structs)
    requires TableOk(s) && CreditedUpTo(s, structs, n)
    requires if s.tasks[n].Some? then
               var t := s.tasks[n].value;
               t in structs && structs' == structs[t := structs[t].(counter := structs[t].counter + structs[t].priority)]
             else structs' == structs
    ensures CreditedUpTo(s, structs', n + 1)
    ensures s.tasks[n].Some? ==> structs'[s.tasks[n].value] == Credited(s).structs[s.tasks[n].value]
  {
    if s.tasks[n].Some? {
      assert s.tasks[n] in s.tasks;
    }
    forall t | t in structs'
      ensures structs'[t] ==
         if exists j: Slot :: j < n + 1 && s.tasks[j] == Some(t) then Credited(s).structs[t]
         else s.structs[t].(counter := if t == s.current then 0 else s.structs[t].counter)
    {
      if s.tasks[n] == Some(t) {
        assert !exists j: Slot :: j < n && s.tasks[j] == Some(t);
      } else {
        assert (exists j: Slot :: j < n + 1 && s.tasks[j] == Some(t)) <==> exists j: Slot :: j < n && s.tasks[j] == Some(t);
      }
    }
  }

  lemma CreditAll(s: Sched, structs: Structs)
    requires CreditedUpTo(s, structs, 64)
    ensures structs == Credited(s).structs
  {
    forall t | t in structs
      ensures structs[t] == Credited(s).structs[t]
    {
      if Some(t) in s.tasks {
        var j :| 0 <= j < |s.tasks| && s.tasks[j] == Some(t);
        var k: Slot := j;
        assert s.tasks[k] == Some(t);
      }
    }
  }

  lemma BestNext(c: Sched, n: Slot, index: Slot, counter: int, index': Slot, counter': int)
    requires BestUpTo(c, n, index, counter)
    requires if Eligible(c, n) && CounterAt(c, n) > counter then index' == n && counter' == CounterAt(c, n)
             else index' == index && counter' == counter
    ensures BestUpTo(c, n + 1, index', counter')
  {
    if Eligible(c, n) {
      assert exists j: Slot :: j < n + 1 && Eligible(c, j);
    } else if exists j: Slot :: j < n + 1 && Eligible(c, j) {
      assert exists j: Slot :: j < n && Eligible(c, j);
    }
  }

  lemma BestAll(c: Sched, index: Slot, counter: int)
    requires BestUpTo(c, 64, index, counter)
    ensures Best(c, index)
  {
    if i: Slot :| Eligible(c, i) {
      assert i < 64;
    }
  }

  lemma SameTableOk(s: Sched, s': Sched)
    requires TableOk(s) && s'.tasks == s.tasks && s'.structs.Keys == s.structs.Keys && s'.current == s.current
    ensures TableOk(s')
  {
    var k: Slot :| s.tasks[k] == Some(s.current);
    assert s'.tasks[k] == Some(s'.current);
  }

  /** The chosen slot is never empty. */
  lemma Chosen(c: Sched, k: Slot)
    requires c.tasks[0] == Some(INIT) && INIT in c.structs && Best(c, k)
    ensures c.tasks[k].Some? && c.tasks[k].value in c.structs && SwitchesTo(c, k, Switched(c, k))
  {
  }

  lemma SearchableSame(s: Sched, s': Sched, pid: int)
    requires Searchable(s, pid) && s'.tasks == s.tasks && s'.structs.Keys == s.structs.Keys
    requires forall t :: t in s.structs ==> s'.structs[t].pid == s.structs[t].pid
    ensures Searchable(s', pid)
  {
    assert forall i: Slot :: HasPid(s, i, pid) ==> HasPid(s', i, pid);
  }

  class TaskTable {
    var tasks: Slots
    var structs: Structs
    var current: Ref
    var taskCount: int

    ghost function S(): Sched
      reads this
    {
      Sched(tasks, structs, current, taskCount)
    }

    /** `task_add` */
    method Add(task: Ref)
      modifies this`tasks
      ensures tasks == Added(old(tasks), task, 0)
    {
      for i := 0 to TASK_TOTAL
        invariant tasks == old(tasks) && Added(tasks, task, 0) == Added(tasks, task, i)
      {
        if tasks[i].None? {
          tasks := tasks[i := Some(task)];
          break;
        }
      }
    }

    /** `task_remove` */
    method Remove(task: Ref)
      modifies this`tasks
      ensures tasks == Removed(old(tasks), task, 0)
    {
      for i := 0 to TASK_TOTAL
        invariant tasks == old(tasks) && Removed(tasks, task, 0) == Removed(tasks, task, i)
      {
        if tasks[i] == Some(task) {
          tasks := tasks[i := None];
          break;
        }
      }
    }

    /** The search loop of `task_block` and `task_unblock`. */
    method Find(pid: int) returns (slot: Option<Slot>)
      requires TableOk(S()) && Searchable(S(), pid)
      ensures slot == FindPid(S(), pid, 0)
    {
      for i := 0 to TASK_TOTAL
        invariant FindPid(S(), pid, 0) == FindPid(S(), pid, i)
        invariant forall j: Slot :: j < i ==> !HasPid(S(), j, pid)
      {
        // `tasks[i]->pid`: the slot must not be empty.
        assert tasks[i].Some?;
        if structs[tasks[i].value].pid == pid {
          return Some(i);
        }
      }
      return None;
    }

    /** Credit for slot `i`, if it is not empty; `credit` is the new counter if it is ready. */
    method CreditSlot(ghost s: Sched, i: Slot) returns (credit: Option<int>)
      requires TableOk(s) && tasks == s.tasks && CreditedUpTo(s, structs, i)
      modifies this`structs
      ensures CreditedUpTo(s, structs, i + 1)
      ensures var c := Credited(s);
              if credit.Some? && credit.value > -1 then Eligible(c, i) && credit.value == CounterAt(c, i)
              else !Eligible(c, i)
    {
      ghost var before := structs;
      credit := None;
      if tasks[i].Some? {
        var t := tasks[i].value;
        structs := structs[t := structs[t].(counter := structs[t].counter + structs[t].priority)];
        if structs[t].state == TaskRunning {
          credit := Some(structs[t].counter);
        }
      }
      CreditNext(s, before, i, structs);
    }

    /** Keep the best slot so far. */
    static method Better(ghost c: Sched, i: Slot, credit: Option<int>, index: Slot, counter: int)
      returns (index': Slot, counter': int)
      requires BestUpTo(c, i, index, counter)
      requires if credit.Some? && credit.value > -1 then Eligible(c, i) && credit.value == CounterAt(c, i)
               else !Eligible(c, i)
      ensures BestUpTo(c, i + 1, index', counter')
    {
      index', counter' := index, counter;
      if credit.Some? && credit.value > counter {
        counter' := credit.value;
        index' := i;
      }
      assert counter >= -1;
      BestNext(c, i, index, counter, index', counter');
    }

    /** The loop of `task_schedule`: everybody gets credit, and the best slot is found. */
    method Choose() returns (index: Slot)
      requires TableOk(S())
      modifies this`structs
      ensures structs == Credited(old(S())).structs && Best(Credited(old(S())), index)
    {
      var counter := -1;
      index := 0;
      ghost var s, c := S(), Credited(S());
      assert TableOk(s);
      structs := structs[current := structs[current].(counter := 0)];
      for i := 0 to TASK_TOTAL
        invariant TableOk(s) && tasks == s.tasks
        invariant CreditedUpTo(s, structs, i) && BestUpTo(c, i, index, counter)
      {
        var credit := CreditSlot(s, i);
        index, counter := Better(c, i, credit, index, counter);
      }
      CreditAll(s, structs);
      BestAll(c, index, counter);
      assert old(S()) == s;
    }

    /** `task_schedule` */
    method Schedule()
      requires TableOk(S())
      modifies this
      ensures Schedules(old(S()), S())
    {
      ghost var c := Credited(S());
      var index := Choose();
      Chosen(c, index);
      var t := tasks[index].value;
      structs := structs[t := structs[t].(counter := structs[t].priority)];
      if current != t {
        current := t;
      }
    }

    /** `task_tick`; `preempted` says whether the running task must not be interrupted. */
    method Tick(preempted: bool)
      requires TableOk(S())
      modifies this
      ensures Step(old(S()), Event.Tick(preempted), S())
    {
      structs := structs[current := structs[current].(counter := structs[current].counter - 1)];
      if structs[current].counter > 0 || preempted {
        return;
      }
      SameTableOk(old(S()), S());
      Schedule();
    }

    /** `task_block` */
    method Block(pid: int, state: RunState)
      requires TableOk(S()) && Searchable(S(), pid)
      modifies this
      ensures Step(old(S()), Event.Block(pid, state), S())
    {
      var slot := Find(pid);
      if slot.Some? {
        var t := tasks[slot.value].value;
        structs := structs[t := structs[t].(state := state)];
      }
      SameTableOk(old(S()), S());
      Schedule();
    }

    /** `task_unblock` */
    method Unblock(pid: int, state: RunState)
      requires TableOk(S()) && Searchable(S(), pid)
      modifies this`structs
      ensures S() == Unblocked(old(S()), pid, state)
    {
      var slot := Find(pid);
      if slot.Some? {
        var t := tasks[slot.value].value;
        if structs[t].state == state {
          structs := structs[t := structs[t].(state := TaskRunning)];
        }
      }
    }

    /** What `task_fork` does to the table of tasks; `page` is the page for the new struct, if there is one, and `space`
        says whether there are pages for the top-level table and the kernel stack. */
    method Fork(page: Option<Ref>, space: bool) returns (pid: int)
      requires Inv(S()) && (page.Some? ==> page.value !in structs)
      modifies this
      ensures page.None? || !space ==> pid == -1 && S() == old(S())
      ensures page.Some? && space ==> Step(old(S()), Event.Fork(page.value), S()) && pid == old(taskCount) + 1
      ensures page.Some? && space ==> page.value in structs && structs[page.value].pid == pid
    {
      if page.None? || !space {
        return -1;
      }
      var child := page.value;
      taskCount := taskCount + 1;
      var t := structs[current];
      structs := structs[child := Task(taskCount, Some(current), 0, t.state, t.priority, t.priority)];
      structs := structs[current := t.(childrenNo := t.childrenNo + 1)];
      Add(child);
      assert S() == Forked(old(S()), child);
      return taskCount;
    }

    /** One turn of the waiting loop of `task_exit`, and what follows once no children are left.  The first
        task never exits.  The result says whether it is gone. */
    method Exit() returns (gone: bool)
      requires TableOk(S()) && current != INIT && structs[current].parent.Some?
      requires structs[current].parent.value in structs && structs[current].parent.value != current
      requires structs[current].childrenNo > 0 ==> Searchable(S(), structs[current].pid)
      requires structs[current].childrenNo <= 0 ==> Searchable(S(), structs[structs[current].parent.value].pid)
      modifies this
      ensures gone ==> Step(old(S()), Event.Exit, S())
      ensures !gone ==> Step(old(S()), Event.Block(old(structs[current].pid), TaskWaiting), S())
      ensures gone <==> old(structs[current].childrenNo) <= 0
    {
      if structs[current].childrenNo > 0 {
        Block(structs[current].pid, TaskWaiting);
        return false;
      }
      Leave();
      return true;
    }

    /** The end of `task_exit`. */
    method Leave()
      requires TableOk(S()) && MayExit(S()) && structs[current].parent.value != current
      requires Searchable(S(), structs[structs[current].parent.value].pid)
      modifies this
      ensures S() == Exited(old(S()))
    {
      var p := structs[current].parent.value;
      structs := structs[p := structs[p].(childrenNo := structs[p].childrenNo - 1)];
      ghost var s1 := S();
      assert s1 == ChildLess(old(S()), p);
      SearchableSame(old(S()), s1, structs[p].pid);
      SameTableOk(old(S()), s1);
      Unblock(structs[p].pid, TaskWaiting);
      ghost var s2 := S();
      Remove(current);
      structs := structs - {current};
      current := INIT;
      assert S() == Left(s2);
    }
  }
}
