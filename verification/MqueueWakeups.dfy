/** No receiver sleeps on a queue that has a message, as long as nobody sends messages of length zero and
    every receive brings a buffer as long as the queue's longest message. */
module MqueueWakeups {
  import opened Options
  import opened Mqueue
  import opened MqueueRuns
  import opened MqueueFifo
  import opened MqueueHistory

  /** Messages of length zero, and receives with a short buffer, go another way (mqueue.c, lines 159 and 316). */
  predicate Polite(s: Mq, e: Event)
    requires |s.queues| == 32
  {
    match e
    case DoSend(_, _, msg) => msg != []
    case DoReceive(_, id, len) => forall i: QueueIx :: s.queues[i].id == id != 0 ==> s.queues[i].msgsize <= len
    case _ => true
  }

  /** Nobody waits for a message if there is one. */
  predicate Awake(q: Queue)
    requires |q.subs| == 8
  {
    q.curmsg > 0 ==> forall k: SubIx :: !q.subs[k].flags.blckRecv
  }

  /** A live queue holds messages of the lengths it promises, and nobody waits for them. */
  predicate Served(q: Queue)
    requires QueueOk(q)
  {
    q.id != 0 ==> Awake(q) && forall k :: 0 <= k < |Fifo(q)| ==> 0 < |Fifo(q)[k]| <= q.msgsize
  }

  predicate QueuesServed(s: Mq)
    requires QueuesOk(s)
  {
    forall i: QueueIx :: QueueOk(s.queues[i]) && Served(s.queues[i])
  }

  predicate CallServed(s: Mq, pid: int)
    requires QueuesOk(s) && pid in s.pending
  {
    var op := s.pending[pid];
    && QueueOk(s.queues[op.q])
    && if op.Sending? then op.msg != []
       else s.queues[op.q].msgsize <= op.len
            && (pid in s.blocked ==> s.queues[op.q].subs[op.sub].flags.blckRecv)
  }

  predicate CallsServed(s: Mq)
    requires QueuesOk(s)
  {
    forall pid :: pid in s.pending ==> CallServed(s, pid)
  }

  predicate Good(s: Mq) { Inv(s) && QueuesServed(s) && CallsServed(s) }

  // ---------------------------------------------------------------- sends and receives

  lemma UnflaggedAwake(q: Queue, msg: Text)
    requires RingOk(q) && Awake(q) && q.curmsg < q.maxmsg && |msg| <= 128
    ensures Awake(Enqueued(TailWrapped(q), msg))
  {
  }

  lemma EnqueuedServed(q: Queue, msg: Text)
    requires QueueOk(q) && q.id != 0 && Served(q) && q.curmsg < q.maxmsg && 0 < |msg| <= q.msgsize
    ensures var r := Enqueued(TailWrapped(q), msg); QueueOk(r) && Served(r)
  {
    EnqueueFifo(q, msg);
    EnqueuedKept(q, msg);
    UnflaggedAwake(q, msg);
    var r := Enqueued(TailWrapped(q), msg);
    SameSubscribers(q, r);
  }

  lemma SameSubscribers(q: Queue, r: Queue)
    requires QueueOk(q) && q.id != 0 && Kept(q, r)
    ensures QueueOk(r)
  {
    if AnySub(q.subs) {
      var k: SubIx :| q.subs[k].pid > 0;
      assert r.subs[k].pid > 0;
    }
  }

  /** A queue that is full, with one subscriber marked as waiting to send. */
  lemma FullServed(q: Queue, sub: SubIx)
    requires QueueOk(q) && q.id != 0 && Served(q)
    ensures var w := TailWrapped(q);
            var r := w.(subs := w.subs[sub := w.subs[sub].(flags := w.subs[sub].flags.(blckSend := true))]);
            QueueOk(w) && Served(w) && QueueOk(r) && Served(r)
  {
    var w := TailWrapped(q);
    var subs := w.subs[sub := w.subs[sub].(flags := w.subs[sub].flags.(blckSend := true))];
    TailWrappedFifo(q);
    SubsFifo(w, subs);
    EnqueuedKept(q, []);
    SameSubscribers(q, w);
    SameSubscribers(w, w.(subs := subs));
  }

  lemma SendTurnServed(s: Mq, pid: int, i: QueueIx, sub: SubIx, msg: Text)
    requires Good(s) && pid > 0 && s.queues[i].subs[sub].pid == pid && s.queues[i].id != 0
    requires 0 < |msg| <= s.queues[i].msgsize
    ensures QueueOk(s.queues[i])
    ensures var t := SendTurn(s, pid, i, sub, msg).s;
            |t.queues| == 32 && QueueOk(t.queues[i]) && Served(t.queues[i])
  {
    var q := s.queues[i];
    assert QueueOk(q) && Served(q);
    if q.curmsg < q.maxmsg { EnqueuedServed(q, msg); } else { FullServed(q, sub); }
  }

  lemma SendTurnGood(s: Mq, pid: int, i: QueueIx, sub: SubIx, msg: Text)
    requires Good(s) && pid > 0 && s.queues[i].subs[sub].pid == pid && s.queues[i].id != 0
    requires 0 < |msg| <= s.queues[i].msgsize
    ensures Good(SendTurn(s, pid, i, sub, msg).s)
  {
    SendTurnInv(s, pid, i, sub, msg);
    SendTurnServed(s, pid, i, sub, msg);
    var t := SendTurn(s, pid, i, sub, msg).s;
    forall j: QueueIx
      ensures QueueOk(t.queues[j]) && Served(t.queues[j])
    {
      if j != i { assert QueueOk(s.queues[j]) && Served(s.queues[j]); }
    }
    forall p | p in t.pending
      ensures CallServed(t, p)
    {
      SendTurnCall(s, pid, i, sub, msg, p);
    }
  }

  lemma SendTurnCall(s: Mq, pid: int, i: QueueIx, sub: SubIx, msg: Text, p: int)
    requires Good(s) && pid > 0 && s.queues[i].subs[sub].pid == pid && s.queues[i].id != 0
    requires 0 < |msg| <= s.queues[i].msgsize
    requires QueueOk(s.queues[i]) && Inv(SendTurn(s, pid, i, sub, msg).s) && p in SendTurn(s, pid, i, sub, msg).s.pending
    ensures CallServed(SendTurn(s, pid, i, sub, msg).s, p)
  {
    var t := SendTurn(s, pid, i, sub, msg).s;
    assert QueueOk(t.queues[t.pending[p].q]) && QueueOk(s.queues[t.pending[p].q]);
    if p in s.pending && t.pending[p] == s.pending[p] {
      assert CallServed(s, p);
      SendWakes(s, pid, i, sub, msg, p);
    }
  }

  /** A sleeping receiver is woken by the first message, and keeps its flag otherwise. */
  lemma SendWakes(s: Mq, pid: int, i: QueueIx, sub: SubIx, msg: Text, p: int)
    requires Good(s) && s.queues[i].id != 0 && |msg| <= s.queues[i].msgsize && p in s.pending
    requires QueueOk(s.queues[i]) && QueueOk(s.queues[s.pending[p].q]) && CallServed(s, p)
    ensures var t := SendTurn(s, pid, i, sub, msg).s; var op := s.pending[p];
            op.Receiving? && p in t.blocked && p in s.blocked ==> t.queues[op.q].subs[op.sub].flags.blckRecv
  {
    var op := s.pending[p];
    var q := s.queues[i];
    assert s.queues[op.q].subs[op.sub].pid == p;
    if op.Receiving? && p in s.blocked && op.q == i && q.curmsg == 0 {
      assert q.subs[op.sub].flags.blckRecv;
      assert p in Flagged(q.subs);
    }
  }

  /** A polite receive gets the oldest message, or sleeps on an empty queue. */
  lemma ReceiveTurnServed(s: Mq, pid: int, i: QueueIx, sub: SubIx, len: nat)
    requires Good(s) && pid > 0 && s.queues[i].subs[sub].pid == pid && s.queues[i].id != 0
    requires s.queues[i].msgsize <= len
    ensures var r := ReceiveTurn(s, pid, i, sub, len);
            && QueueOk(s.queues[i]) && QueueOk(r.s.queues[i]) && Served(r.s.queues[i])
            && (s.queues[i].curmsg > 0 ==> r.s.pending == s.pending && r.out.Got?)
  {
    var q := s.queues[i];
    assert QueueOk(q) && Served(q);
    ReceiveTurnMoved(s, pid, i, sub, len);
    var p := ReceiveTurn(s, pid, i, sub, len).s.queues[i];
    if q.curmsg > 0 {
      assert Fifo(q) == [Fifo(q)[0]] + Fifo(p);
      forall k | 0 <= k < |Fifo(p)|
        ensures 0 < |Fifo(p)[k]| <= q.msgsize
      {
        assert Fifo(p)[k] == Fifo(q)[k + 1];
      }
    }
  }

  lemma ReceiveTurnGood(s: Mq, pid: int, i: QueueIx, sub: SubIx, len: nat)
    requires Good(s) && pid > 0 && s.queues[i].subs[sub].pid == pid && s.queues[i].id != 0
    requires s.queues[i].msgsize <= len && pid !in s.pending
    ensures Good(ReceiveTurn(s, pid, i, sub, len).s)
  {
    ReceiveTurnInv(s, pid, i, sub, len);
    ReceiveTurnServed(s, pid, i, sub, len);
    var t := ReceiveTurn(s, pid, i, sub, len).s;
    forall j: QueueIx
      ensures QueueOk(t.queues[j]) && Served(t.queues[j])
    {
      if j != i { assert QueueOk(s.queues[j]) && Served(s.queues[j]); }
    }
    forall p | p in t.pending
      ensures CallServed(t, p)
    {
      assert QueueOk(t.queues[t.pending[p].q]) && QueueOk(s.queues[t.pending[p].q]);
      if p in s.pending {
        assert CallServed(s, p) && s.queues[s.pending[p].q].subs[s.pending[p].sub].pid == p;
      }
    }
  }

  lemma ResumeGood(s: Mq, pid: int)
    requires Good(s) && pid in s.pending
    ensures Good(Resumed(s, pid).s)
  {
    var op := s.pending[pid];
    var s' := s.(pending := s.pending - {pid});
    PendingLive(s, pid);
    assert CallServed(s, pid);
    assert forall p :: p in s'.pending ==> CallServed(s, p);
    assert Inv(s') && CallsServed(s');
    if op.Sending? { SendTurnGood(s', pid, op.q, op.sub, op.msg); }
    else { ReceiveTurnGood(s', pid, op.q, op.sub, op.len); }
  }

  lemma SendGood(s: Mq, pid: int, id: int, msg: Text)
    requires Good(s) && pid > 0 && msg != []
    ensures Good(Send(s, pid, id, msg).s)
  {
    match FindId(s.queues, id, 0)
    case None =>
    case Some(i) =>
      match FindSub(s.queues[i].subs, pid, 0)
      case None =>
      case Some(sub) =>
        SubscriberLive(s, i, sub);
        if |msg| <= s.queues[i].msgsize { SendTurnGood(s, pid, i, sub, msg); }
  }

  lemma ReceiveGood(s: Mq, pid: int, id: int, len: nat)
    requires Good(s) && pid > 0 && pid !in s.pending && Polite(s, DoReceive(pid, id, len))
    ensures Good(Receive(s, pid, id, len).s)
  {
    match FindId(s.queues, id, 0)
    case None =>
    case Some(i) =>
      match FindSub(s.queues[i].subs, pid, 0)
      case None =>
      case Some(sub) =>
        SubscriberLive(s, i, sub);
        ReceiveTurnGood(s, pid, i, sub, len);
  }

  // ---------------------------------------------------------------- the other calls

  /** A slot that changed without messages moving. */
  lemma SlotGood(s: Mq, t: Mq, i: QueueIx)
    requires Good(s) && Inv(t) && t.pending == s.pending && t.blocked == s.blocked
    requires forall j: QueueIx :: j != i ==> t.queues[j] == s.queues[j]
    requires QueueOk(t.queues[i]) && Served(t.queues[i])
    requires forall pid :: pid in s.pending && s.pending[pid].q == i ==>
               var op := s.pending[pid];
               t.queues[i].msgsize == s.queues[i].msgsize && t.queues[i].subs[op.sub] == s.queues[i].subs[op.sub]
    ensures Good(t)
  {
    forall j: QueueIx
      ensures QueueOk(t.queues[j]) && Served(t.queues[j])
    {
      if j != i { assert QueueOk(s.queues[j]) && Served(s.queues[j]); }
    }
    forall p | p in t.pending
      ensures CallServed(t, p)
    {
      assert CallServed(s, p) && QueueOk(t.queues[t.pending[p].q]);
    }
  }

  lemma SubscribedGood(s: Mq, pid: int, i: QueueIx, flags: Flags)
    requires Good(s) && pid > 0 && s.queues[i].id != 0 && !flags.blckRecv
    ensures Good(Subscribed(s, pid, i, flags).s)
  {
    var q := s.queues[i];
    assert QueueOk(q) && Served(q);
    SubscribedInv(s, pid, i, flags);
    var t := Subscribed(s, pid, i, flags).s;
    SubsFifo(q, t.queues[i].subs);
    forall p | p in s.pending && s.pending[p].q == i
      ensures t.queues[i].subs[s.pending[p].sub] == q.subs[s.pending[p].sub]
    {
      PendingLive(s, p);
    }
    assert QueueOk(t.queues[i]);
    SlotGood(s, t, i);
  }

  lemma CreateGood(s: Mq, i: QueueIx, hash: nat, attr: Option<MqAttr>)
    requires Good(s) && s.queues[i].id == 0 && AttrError(attr).None? && (attr.Some? ==> attr.value.maxmsg >= 0)
    requires forall j: QueueIx :: s.queues[j].id == 0 || s.queues[j].hash != hash
    ensures Good(Create(s, i, hash, attr))
  {
    CreateInv(s, i, hash, attr);
    FreeSlot(s, i);
    var t := Create(s, i, hash, attr);
    assert QueueOk(t.queues[i]);
    SlotGood(s, t, i);
  }

  lemma OpenGood(s: Mq, pid: int, hash: nat, creat: bool, excl: bool, flags: Flags, attr: Option<MqAttr>)
    requires Good(s) && Enabled(s, DoOpen(pid, hash, creat, excl, flags, attr))
    ensures Good(Open(s, pid, hash, creat, excl, flags, attr).s)
  {
    match FindHash(s.queues, hash, 0)
    case Some(i) => SubscribedGood(s, pid, i, flags);
    case None =>
      var f := FindId(s.queues, 0, 0);
      if creat && f.Some? && AttrError(attr).None? {
        CreateGood(s, f.value, hash, attr);
        CreateInv(s, f.value, hash, attr);
        SubscribedGood(Create(s, f.value, hash, attr), pid, f.value, flags);
      }
  }

  lemma ClosedServed(q: Queue, pid: int)
    requires QueueOk(q) && Served(q) && pid > 0
    ensures QueueOk(Closed(q, pid)) && Served(Closed(q, pid))
  {
    ClosedOk(q, pid);
    if q.id != 0 { SubsFifo(q, Closed(q, pid).subs); OpenFifo(q.(subs := Closed(q, pid).subs), false); }
  }

  lemma OpenFifo(q: Queue, o: bool)
    requires RingOk(q)
    ensures RingOk(q.(open := o)) && Fifo(q.(open := o)) == Fifo(q)
  {
    var r := q.(open := o);
    assert forall k: nat :: k < q.curmsg ==> MessageAt(r, k) == MessageAt(q, k);
  }

  lemma CloseGood(s: Mq, pid: int, id: int)
    requires Good(s) && pid > 0 && pid !in s.pending
    ensures Good(Close(s, pid, id).s)
  {
    CloseInv(s, pid, id);
    match FindId(s.queues, id, 0)
    case None =>
    case Some(i) =>
      assert QueueOk(s.queues[i]) && Served(s.queues[i]);
      ClosedOk(s.queues[i], pid);
      ClosedServed(s.queues[i], pid);
      forall p | p in s.pending && s.pending[p].q == i
        ensures s.queues[i].subs[s.pending[p].sub].pid != pid
      {
        PendingLive(s, p);
      }
      SlotGood(s, Close(s, pid, id).s, i);
  }

  lemma UnlinkGood(s: Mq, hash: nat)
    requires Good(s)
    ensures Good(Unlink(s, hash).s)
  {
    UnlinkInv(s, hash);
    match FindHash(s.queues, hash, 0)
    case None =>
    case Some(i) =>
      var q := s.queues[i];
      assert QueueOk(q) && Served(q);
      OpenFifo(q, false);
      DestroyedOk(q);
      SlotGood(s, Unlink(s, hash).s, i);
  }

  /** Every step of a polite run keeps the queues served. */
  lemma StepGood(s: Mq, e: Event)
    requires Good(s) && Enabled(s, e) && Polite(s, e)
    ensures Good(Step(s, e).s)
  {
    match e
    case DoOpen(pid, hash, creat, excl, flags, attr) => OpenGood(s, pid, hash, creat, excl, flags, attr);
    case DoClose(pid, id) => CloseGood(s, pid, id);
    case DoUnlink(_, hash) => UnlinkGood(s, hash);
    case DoSend(pid, id, msg) => SendGood(s, pid, id, msg);
    case DoReceive(pid, id, len) => ReceiveGood(s, pid, id, len);
    case Resume(pid) => ResumeGood(s, pid);
    case Wake(pid) =>
      var t := Step(s, e).s;
      assert forall p :: p in t.pending ==> CallServed(s, p);
  }

  predicate PoliteRun(s: Mq, es: seq<Event>)
    requires Inv(s) && IsRun(s, es)
    decreases |es|
  {
    es == [] || (Polite(s, es[0]) && (StepInv(s, es[0]); PoliteRun(Step(s, es[0]).s, es[1..])))
  }

  lemma {:induction false} RunGood(s: Mq, es: seq<Event>)
    requires Good(s) && IsRun(s, es) && PoliteRun(s, es)
    ensures Good(Last(s, es))
    decreases |es|
  {
    if es != [] {
      StepGood(s, es[0]);
      RunGood(Step(s, es[0]).s, es[1..]);
    }
  }

  /** After any polite run: a task that sleeps in a receive sleeps on an empty queue, and no subscriber of a
      queue that has messages is marked as waiting for one. */
  lemma NoLostWakeUp(s: Mq, es: seq<Event>, pid: int)
    requires Good(s) && IsRun(s, es) && PoliteRun(s, es)
    ensures var t := Last(s, es);
            && (forall i: QueueIx, k: SubIx :: t.queues[i].id != 0 && t.queues[i].curmsg > 0 ==>
                  QueueOk(t.queues[i]) && !t.queues[i].subs[k].flags.blckRecv)
            && (pid in t.pending && pid in t.blocked && t.pending[pid].Receiving? ==>
                  Content(t, t.queues[t.pending[pid].q].id) == [])
  {
    RunGood(s, es);
    var t := Last(s, es);
    forall i: QueueIx
      ensures QueueOk(t.queues[i]) && Served(t.queues[i])
    {
    }
    if pid in t.pending && pid in t.blocked && t.pending[pid].Receiving? {
      PendingLive(t, pid);
      assert CallServed(t, pid);
      FoundAt(t, t.pending[pid].q);
    }
  }

  /** A blocking receive falls asleep beside waiting messages in exactly two cases: the oldest message is
      longer than the buffer, or it has length zero and is not the only one. */
  lemma SleepsBesideMessages(s: Mq, pid: int, i: QueueIx, sub: SubIx, len: nat)
    requires Inv(s) && pid > 0 && s.queues[i].id != 0 && QueueOk(s.queues[i])
    requires s.queues[i].subs[sub].pid == pid && !s.queues[i].subs[sub].flags.nonblock && s.queues[i].curmsg > 0
    ensures var r := ReceiveTurn(s, pid, i, sub, len); var f := Fifo(s.queues[i]);
            && |r.s.queues| == 32 && QueueOk(r.s.queues[i])
            && (r.out == Asleep && Fifo(r.s.queues[i]) != [] <==> |f[0]| > len || (|f[0]| == 0 && |f| > 1))
  {
    var q := s.queues[i];
    ReceiveTurnMoved(s, pid, i, sub, len);
    var r := ReceiveTurn(s, pid, i, sub, len);
    assert QueueOk(r.s.queues[i]);
  }

  lemma BootGood()
    ensures Good(BOOT)
  {
  }
}
