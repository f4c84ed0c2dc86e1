/** From `mqueue_open` to the last `mqueue_close`. */
module MqueueLifecycle {
  import opened Options
  import opened Mqueue
  import opened MqueueRuns
  import opened MqueueFifo
  import opened MqueueHistory

  /** What a queue still needs to be usable as a ring after its creation: attributes pass the checks with a
      negative number of messages, and the ring is sound exactly when that number is positive. */
  lemma CreatedRing(q: Queue, id: int, hash: nat, attr: Option<MqAttr>)
    requires Arrays(q) && AttrError(attr).None?
    ensures RingOk(Created(q, id, hash, attr)) <==> (attr.Some? ==> attr.value.maxmsg >= 1)
    ensures AttrError(Some(MqAttr(-1, 1))).None?
    ensures RingOk(Created(q, id, hash, attr)) ==> Fifo(Created(q, id, hash, attr)) == []
  {
  }

  /** A close frees the queue exactly when it was unlinked before and nobody else is subscribed. */
  lemma LastCloseFrees(s: Mq, pid: int, id: int)
    requires Inv(s) && pid > 0 && Live(s, id)
    ensures var i := FindId(s.queues, id, 0).value;
            !Live(Close(s, pid, id).s, id)
            <==> !s.queues[i].open && forall k: SubIx :: s.queues[i].subs[k].pid > 0 ==>
                   FindSub(s.queues[i].subs, pid, 0) == Some(k)
  {
    var i := FindId(s.queues, id, 0).value;
    var q := s.queues[i];
    assert QueueOk(q);
    var t := Close(s, pid, id).s;
    var u := Unsubscribed(q, pid);
    var mine := FindSub(q.subs, pid, 0);
    assert forall k: SubIx :: u.subs[k].pid > 0 <==> q.subs[k].pid > 0 && mine != Some(k);
    assert t.queues[i] == Closed(q, pid);
    assert t.queues[i].id != 0 <==> q.open || AnySub(u.subs);
    if t.queues[i].id == 0 {
      assert forall j: QueueIx :: t.queues[j].id != id;
    }
  }

  // ---------------------------------------------------------------- calls that sleep

  predicate NoResume(es: seq<Event>, pid: int) { forall k :: 0 <= k < |es| ==> es[k] != Resume(pid) }

  /** The subscription that call `pid` holds is still its own, in the same live queue. */
  predicate Holds(s: Mq, t: Mq, pid: int)
    requires |s.queues| == 32 && |t.queues| == 32 && pid in s.pending
  {
    && pid in t.pending && t.pending[pid] == s.pending[pid]
    && t.queues[s.pending[pid].q].id == s.queues[s.pending[pid].q].id
  }

  lemma StepHolds(s: Mq, e: Event, pid: int)
    requires Inv(s) && Enabled(s, e) && pid in s.pending && e != Resume(pid)
    ensures Inv(Step(s, e).s) && Holds(s, Step(s, e).s, pid)
  {
    StepMoved(s, e);
    StepPending(s, e, pid);
    var r := Step(s, e);
    PendingLive(r.s, pid);
    PendingLive(s, pid);
    assert SlotMoved(s, r, s.pending[pid].q);
  }

  /** A step of a message call is one turn on one queue, or none. */
  lemma StepTalked(s: Mq, e: Event)
    requires Inv(s) && Enabled(s, e) && (e.DoSend? || e.DoReceive? || e.Resume?)
    ensures Talked(s, Step(s, e).s, e.pid)
  {
    match e
    case DoSend(pid, id, msg) => SendInv(s, pid, id, msg);
    case DoReceive(pid, id, len) => ReceiveInv(s, pid, id, len);
    case Resume(pid) => ResumeInv(s, pid);
  }

  lemma StepPending(s: Mq, e: Event, pid: int)
    requires Inv(s) && Enabled(s, e) && pid in s.pending && e != Resume(pid)
    ensures pid in Step(s, e).s.pending && Step(s, e).s.pending[pid] == s.pending[pid]
  {
    if e.DoSend? || e.DoReceive? || e.Resume? {
      StepTalked(s, e);
    }
  }

  /** No slot is used for another queue while a task sleeps in a send or a receive on it, whatever the other
      tasks open, close and unlink meanwhile. */
  lemma {:induction false} SlotNotRecycled(s: Mq, es: seq<Event>, pid: int)
    requires Inv(s) && IsRun(s, es) && pid in s.pending && NoResume(es, pid)
    ensures Holds(s, Last(s, es), pid) && s.queues[s.pending[pid].q].id > 0
    decreases |es|
  {
    PendingLive(s, pid);
    if es != [] {
      assert es[0] != Resume(pid);
      StepHolds(s, es[0], pid);
      assert forall k :: 0 <= k < |es[1..]| ==> es[1..][k] == es[k + 1];
      SlotNotRecycled(Step(s, es[0]).s, es[1..], pid);
    }
  }

  // ---------------------------------------------------------------- subscriptions run out

  /** Subscription slots that were never used: a closed subscription leaves process ID -1 behind. */
  function Unused(subs: seq<Sub>): nat {
    if subs == [] then 0 else (if subs[0].pid == 0 then 1 else 0) + Unused(subs[1..])
  }

  function AllUnused(qs: seq<Queue>): nat {
    if qs == [] then 0 else Unused(qs[0].subs) + AllUnused(qs[1..])
  }

  lemma {:induction false} UnusedUpdate(subs: seq<Sub>, k: nat, x: Sub)
    requires k < |subs|
    ensures Unused(subs[k := x]) + (if subs[k].pid == 0 then 1 else 0) == Unused(subs) + (if x.pid == 0 then 1 else 0)
  {
    if k > 0 {
      UnusedUpdate(subs[1..], k - 1, x);
      assert subs[k := x][1..] == subs[1..][k - 1 := x];
    } else {
      assert subs[k := x][1..] == subs[1..];
    }
  }

  lemma {:induction false} AllUnusedUpdate(qs: seq<Queue>, i: nat, q: Queue)
    requires i < |qs|
    ensures AllUnused(qs[i := q]) + Unused(qs[i].subs) == AllUnused(qs) + Unused(q.subs)
  {
    if i > 0 {
      AllUnusedUpdate(qs[1..], i - 1, q);
      assert qs[i := q][1..] == qs[1..][i - 1 := q];
    } else {
      assert qs[i := q][1..] == qs[1..];
    }
  }

  lemma {:induction false} SamePids(a: seq<Sub>, b: seq<Sub>)
    requires |a| == |b| && forall k :: 0 <= k < |a| ==> (a[k].pid == 0 <==> b[k].pid == 0)
    ensures Unused(a) == Unused(b)
  {
    if a != [] { SamePids(a[1..], b[1..]); }
  }

  lemma {:induction false} SomeUnused(subs: seq<Sub>, k: nat)
    requires k < |subs| && subs[k].pid == 0
    ensures Unused(subs) > 0
  {
    if k > 0 { SomeUnused(subs[1..], k - 1); }
  }

  lemma TalkedUnused(s: Mq, t: Mq, pid: int)
    requires Inv(s) && Talked(s, t, pid)
    ensures AllUnused(t.queues) == AllUnused(s.queues)
  {
    if t != s {
      var i: QueueIx :| QueueOk(s.queues[i]) && Turned(s, t, i, pid);
      SamePids(s.queues[i].subs, t.queues[i].subs);
      AllUnusedUpdate(s.queues, i, t.queues[i]);
    }
  }

  lemma SubscribedUnused(s: Mq, pid: int, i: QueueIx, flags: Flags)
    requires |s.queues| == 32 && Arrays(s.queues[i]) && pid > 0
    ensures var r := Subscribed(s, pid, i, flags);
            AllUnused(r.s.queues) + (if r.out.Opened? then 1 else 0) == AllUnused(s.queues)
  {
    var q := s.queues[i];
    var k := FindSub(q.subs, 0, 0);
    if k.Some? {
      UnusedUpdate(q.subs, k.value, Sub(pid, flags));
      AllUnusedUpdate(s.queues, i, q.(subs := q.subs[k.value := Sub(pid, flags)]));
    }
  }

  lemma CreateUnused(s: Mq, i: QueueIx, pid: int, hash: nat, flags: Flags, attr: Option<MqAttr>)
    requires Inv(s) && pid > 0
    ensures var r := Subscribed(Create(s, i, hash, attr), pid, i, flags);
            AllUnused(r.s.queues) + (if r.out.Opened? then 1 else 0) == AllUnused(s.queues)
  {
    AllUnusedUpdate(s.queues, i, Created(s.queues[i], s.count + 1, hash, attr));
    SubscribedUnused(Create(s, i, hash, attr), pid, i, flags);
  }

  lemma OpenUnused(s: Mq, pid: int, hash: nat, creat: bool, excl: bool, flags: Flags, attr: Option<MqAttr>)
    requires Inv(s) && pid > 0
    ensures var r := Open(s, pid, hash, creat, excl, flags, attr);
            AllUnused(r.s.queues) + (if r.out.Opened? then 1 else 0) == AllUnused(s.queues)
  {
    match FindHash(s.queues, hash, 0)
    case Some(i) =>
      assert QueueOk(s.queues[i]);
      SubscribedUnused(s, pid, i, flags);
    case None =>
      var f := FindId(s.queues, 0, 0);
      if creat && f.Some? && AttrError(attr).None? { CreateUnused(s, f.value, pid, hash, flags, attr); }
  }

  lemma ClosedUnused(q: Queue, pid: int)
    requires |q.subs| == 8 && pid > 0
    ensures Unused(Closed(q, pid).subs) == Unused(q.subs)
  {
    SamePids(q.subs, Closed(q, pid).subs);
  }

  lemma CloseUnused(s: Mq, pid: int, id: int)
    requires Inv(s) && pid > 0
    ensures AllUnused(Close(s, pid, id).s.queues) == AllUnused(s.queues)
  {
    match FindId(s.queues, id, 0)
    case None =>
    case Some(i) =>
      assert QueueOk(s.queues[i]);
      ClosedUnused(s.queues[i], pid);
      AllUnusedUpdate(s.queues, i, Closed(s.queues[i], pid));
  }

  lemma StepUnused(s: Mq, e: Event)
    requires Inv(s) && Enabled(s, e)
    ensures var r := Step(s, e);
            AllUnused(r.s.queues) + (if e.DoOpen? && r.out.Opened? then 1 else 0) == AllUnused(s.queues)
  {
    match e
    case DoOpen(pid, hash, creat, excl, flags, attr) => OpenUnused(s, pid, hash, creat, excl, flags, attr);
    case DoClose(pid, id) => CloseUnused(s, pid, id);
    case DoUnlink(_, hash) =>
      var i := FindHash(s.queues, hash, 0);
      if i.Some? { AllUnusedUpdate(s.queues, i.value, Destroyed(s.queues[i.value])); }
    case DoSend(pid, _, _) => StepTalked(s, e); TalkedUnused(s, Step(s, e).s, pid);
    case DoReceive(pid, _, _) => StepTalked(s, e); TalkedUnused(s, Step(s, e).s, pid);
    case Resume(pid) => StepTalked(s, e); TalkedUnused(s, Step(s, e).s, pid);
    case Wake(_) =>
  }

  /** Successful opens in a run. */
  function Opens(s: Mq, es: seq<Event>): nat
    requires Inv(s) && IsRun(s, es)
    decreases |es|
  {
    if es == [] then 0 else
      StepInv(s, es[0]);
      var r := Step(s, es[0]);
      (if es[0].DoOpen? && r.out.Opened? then 1 else 0) + Opens(r.s, es[1..])
  }

  /** Each successful open uses up one subscription slot for good, closed or not: there are as many as
      there were unused slots, and then no queue can be opened any more. */
  lemma {:induction false} OpensUseUp(s: Mq, es: seq<Event>)
    requires Inv(s) && IsRun(s, es)
    ensures Opens(s, es) + AllUnused(Last(s, es).queues) == AllUnused(s.queues)
    decreases |es|
  {
    if es != [] {
      StepInv(s, es[0]);
      StepUnused(s, es[0]);
      OpensUseUp(Step(s, es[0]).s, es[1..]);
    }
  }

  lemma {:induction false} BootUnused(n: nat)
    ensures AllUnused(NoQueues(n)) == 8 * n
  {
    if n > 0 {
      NoneUsed(8);
      BootUnused(n - 1);
    }
  }

  lemma {:induction false} NoneUsed(n: nat)
    ensures Unused(NoSubs(n)) == n
  {
    if n > 0 { NoneUsed(n - 1); }
  }

  /** From boot on, no more than 256 opens succeed, however many queues are closed and unlinked. */
  lemma OpensBounded(es: seq<Event>)
    requires Inv(BOOT) && IsRun(BOOT, es)
    ensures Opens(BOOT, es) <= 256
  {
    OpensUseUp(BOOT, es);
    BootUnused(32);
  }
}
