/** What every run of the message queue calls keeps. */
module MqueueRuns {
  import opened Options
  import opened Mqueue

  // ---------------------------------------------------------------- the invariant

  /** One queue before and after a message went in or out: its names, subscribers and limits stay. */
  predicate SameNames(q: Queue, r: Queue)
    requires |q.subs| == 8
  {
    && r.id == q.id && r.hash == q.hash && r.open == q.open && r.msgsize == q.msgsize && r.maxmsg == q.maxmsg
    && |r.subs| == 8 && forall k: SubIx :: r.subs[k].pid == q.subs[k].pid
  }

  predicate Kept(q: Queue, r: Queue)
    requires |q.subs| == 8
  {
    SameNames(q, r) && RingOk(r)
  }

  /** A live queue that keeps its names keeps the invariant; a call that falls asleep holds a subscription. */
  lemma KeptInv(s: Mq, t: Mq, i: QueueIx, r: Queue)
    requires Inv(s) && s.queues[i].id != 0 && Kept(s.queues[i], r)
    requires t.queues == s.queues[i := r] && t.count == s.count
    requires forall pid :: pid in t.pending ==>
               (pid in s.pending && t.pending[pid] == s.pending[pid])
               || (var op := t.pending[pid];
                   && pid > 0 && op.q == i && s.queues[i].subs[op.sub].pid == pid
                   && (op.Sending? ==> |op.msg| <= s.queues[i].msgsize))
    ensures Inv(t)
  {
    var q := s.queues[i];
    assert QueueOk(q);
    if AnySub(q.subs) {
      var k: SubIx :| q.subs[k].pid > 0;
      assert r.subs[k].pid > 0;
    }
    assert QueueOk(r);
    forall pid | pid in t.pending
      ensures var op := t.pending[pid];
              && pid > 0 && |t.queues[op.q].subs| == 8 && t.queues[op.q].subs[op.sub].pid == pid
              && (op.Sending? ==> |op.msg| <= t.queues[op.q].msgsize)
    {
      if t.pending[pid].q != i { assert t.queues[t.pending[pid].q] == s.queues[t.pending[pid].q]; }
    }
  }

  /** What one turn of a send or a receive of `pid` leaves alone. */
  predicate Turned(s: Mq, t: Mq, i: QueueIx, pid: int)
    requires |s.queues| == 32 && |s.queues[i].subs| == 8
  {
    && |t.queues| == 32 && t.queues == s.queues[i := t.queues[i]] && Kept(s.queues[i], t.queues[i])
    && t.count == s.count
    && forall p :: p != pid && p in s.pending ==> p in t.pending && t.pending[p] == s.pending[p]
  }

  lemma EnqueuedKept(q: Queue, msg: Text)
    requires RingOk(q) && |msg| <= 128
    ensures Kept(q, TailWrapped(q))
    ensures q.curmsg < q.maxmsg ==> Kept(q, Enqueued(TailWrapped(q), msg))
  {
  }

  lemma DequeuedKept(q: Queue)
    requires RingOk(q)
    ensures Kept(q, HeadWrapped(q))
    ensures q.curmsg > 0 ==> Kept(q, Dequeued(HeadWrapped(q)))
  {
  }

  /** Calls that sleep are the same, but perhaps for one on queue `i`. */
  predicate SameCalls(s: Mq, t: Mq, i: QueueIx, pid: int)
    requires |s.queues| == 32 && |s.queues[i].subs| == 8
  {
    && (forall p :: p != pid && p in s.pending ==> p in t.pending && t.pending[p] == s.pending[p])
    && (forall p :: p in t.pending ==>
          (p in s.pending && t.pending[p] == s.pending[p])
          || (var op := t.pending[p];
              && p > 0 && op.q == i && s.queues[i].subs[op.sub].pid == p
              && (op.Sending? ==> |op.msg| <= s.queues[i].msgsize)))
  }

  lemma TurnInv(s: Mq, t: Mq, i: QueueIx, pid: int)
    requires Inv(s) && s.queues[i].id != 0 && |t.queues| == 32 && Kept(s.queues[i], t.queues[i])
    requires t.queues == s.queues[i := t.queues[i]] && t.count == s.count && SameCalls(s, t, i, pid)
    ensures Inv(t) && Turned(s, t, i, pid)
  {
    KeptInv(s, t, i, t.queues[i]);
  }

  lemma SendTurnShape(s: Mq, pid: int, i: QueueIx, sub: SubIx, msg: Text)
    requires |s.queues| == 32 && RingOk(s.queues[i]) && |msg| <= 128
    ensures var t := SendTurn(s, pid, i, sub, msg).s;
            && |t.queues| == 32 && t.queues == s.queues[i := t.queues[i]] && t.count == s.count
            && Kept(s.queues[i], t.queues[i])
  {
    EnqueuedKept(s.queues[i], msg);
  }

  lemma SendTurnCalls(s: Mq, pid: int, i: QueueIx, sub: SubIx, msg: Text)
    requires |s.queues| == 32 && RingOk(s.queues[i]) && pid > 0 && s.queues[i].subs[sub].pid == pid
    requires |msg| <= 128 && |msg| <= s.queues[i].msgsize
    ensures SameCalls(s, SendTurn(s, pid, i, sub, msg).s, i, pid)
  {}

  lemma SendTurnInv(s: Mq, pid: int, i: QueueIx, sub: SubIx, msg: Text)
    requires Inv(s) && pid > 0 && s.queues[i].subs[sub].pid == pid && s.queues[i].id != 0
    requires |msg| <= s.queues[i].msgsize
    ensures Inv(SendTurn(s, pid, i, sub, msg).s) && Turned(s, SendTurn(s, pid, i, sub, msg).s, i, pid)
  {
    assert QueueOk(s.queues[i]);
    SendTurnShape(s, pid, i, sub, msg);
    SendTurnCalls(s, pid, i, sub, msg);
    TurnInv(s, SendTurn(s, pid, i, sub, msg).s, i, pid);
  }

  lemma NoMessageShape(s: Mq, pid: int, i: QueueIx, sub: SubIx, len: nat, effect: Effect)
    requires |s.queues| == 32 && RingOk(s.queues[i]) && pid > 0 && s.queues[i].subs[sub].pid == pid
    ensures var t := NoMessage(s, pid, i, sub, len, effect).s;
            && |t.queues| == 32 && t.queues == s.queues[i := t.queues[i]] && t.count == s.count
            && Kept(s.queues[i], t.queues[i]) && SameCalls(s, t, i, pid)
  {}

  lemma NoMessageInv(s: Mq, pid: int, i: QueueIx, sub: SubIx, len: nat, effect: Effect)
    requires Inv(s) && pid > 0 && s.queues[i].subs[sub].pid == pid && s.queues[i].id != 0
    ensures Inv(NoMessage(s, pid, i, sub, len, effect).s)
    ensures Turned(s, NoMessage(s, pid, i, sub, len, effect).s, i, pid)
  {
    assert QueueOk(s.queues[i]);
    NoMessageShape(s, pid, i, sub, len, effect);
    TurnInv(s, NoMessage(s, pid, i, sub, len, effect).s, i, pid);
  }

  lemma WithKept(s: Mq, i: QueueIx, p: Queue, pid: int)
    requires Inv(s) && s.queues[i].id != 0 && |s.queues[i].subs| == 8 && Kept(s.queues[i], p)
    ensures Inv(WithQueue(s, i, p)) && Turned(s, WithQueue(s, i, p), i, pid)
  {
    KeptInv(s, WithQueue(s, i, p), i, p);
  }

  lemma ThenNoMessage(s: Mq, pid: int, i: QueueIx, sub: SubIx, len: nat, p: Queue, effect: Effect)
    requires Inv(s) && pid > 0 && s.queues[i].subs[sub].pid == pid && s.queues[i].id != 0 && Kept(s.queues[i], p)
    requires QueueOk(s.queues[i])
    ensures Arrays(p)
    ensures var t := NoMessage(WithQueue(s, i, p), pid, i, sub, len, effect).s; Inv(t) && Turned(s, t, i, pid)
  {
    WithKept(s, i, p, pid);
    NoMessageInv(WithQueue(s, i, p), pid, i, sub, len, effect);
    TurnedTwice(s, WithQueue(s, i, p), NoMessage(WithQueue(s, i, p), pid, i, sub, len, effect).s, i, pid);
  }

  lemma ReceiveTurnInv(s: Mq, pid: int, i: QueueIx, sub: SubIx, len: nat)
    requires Inv(s) && pid > 0 && s.queues[i].subs[sub].pid == pid && s.queues[i].id != 0
    ensures Inv(ReceiveTurn(s, pid, i, sub, len).s) && Turned(s, ReceiveTurn(s, pid, i, sub, len).s, i, pid)
  {
    var q := s.queues[i];
    assert QueueOk(q);
    if q.curmsg == 0 {
      NoMessageInv(s, pid, i, sub, len, Nothing);
    } else {
      DequeuedKept(q);
      var w := HeadWrapped(q);
      var m := w.slots[w.head + 1];
      if m.size > len {
        ThenNoMessage(s, pid, i, sub, len, w, Nothing);
      } else if m.size == 0 {
        ThenNoMessage(s, pid, i, sub, len, Dequeued(w), Took(w.id, []));
      } else {
        WithKept(s, i, Dequeued(w), pid);
      }
    }
  }

  lemma TurnedTwice(s: Mq, s': Mq, t: Mq, i: QueueIx, pid: int)
    requires |s.queues| == 32 && |s.queues[i].subs| == 8
    requires Turned(s, s', i, pid) && Turned(s', t, i, pid)
    ensures Turned(s, t, i, pid)
  {
    assert forall k: SubIx :: t.queues[i].subs[k].pid == s'.queues[i].subs[k].pid;
  }

  /** What one slot has to satisfy to be put in the place of another. */
  predicate Fits(s: Mq, i: QueueIx, r: Queue)
    requires |s.queues| == 32
  {
    && QueueOk(r) && 0 <= r.id <= s.count
    && (r.id != 0 ==> forall j: QueueIx :: j != i && s.queues[j].id != 0 ==>
          s.queues[j].id != r.id && s.queues[j].hash != r.hash)
    && forall pid :: pid in s.pending && s.pending[pid].q == i ==>
         var op := s.pending[pid];
         r.subs[op.sub].pid == pid && (op.Sending? ==> |op.msg| <= r.msgsize)
  }

  lemma FitsInv(s: Mq, i: QueueIx, r: Queue)
    requires Inv(s) && Fits(s, i, r)
    ensures Inv(WithQueue(s, i, r))
  {
    var t := WithQueue(s, i, r);
    assert forall j: QueueIx :: j != i ==> t.queues[j] == s.queues[j];
    assert QueuesOk(t);
    assert PendingOk(t);
    assert NamesOk(t);
  }

  /** Nobody sleeps on a free slot. */
  lemma FreeSlot(s: Mq, i: QueueIx)
    requires Inv(s) && s.queues[i].id == 0
    ensures forall pid :: pid in s.pending ==> s.pending[pid].q != i
  {
    forall p | p in s.pending
      ensures s.pending[p].q != i
    {
      PendingLive(s, p);
    }
  }

  lemma CreatedOk(q: Queue, id: int, hash: nat, attr: Option<MqAttr>)
    requires QueueOk(q) && id > 0 && AttrError(attr).None?
    requires attr.Some? ==> attr.value.maxmsg >= 0
    ensures QueueOk(Created(q, id, hash, attr))
  {
  }

  lemma OpenInv(s: Mq, pid: int, hash: nat, creat: bool, excl: bool, flags: Flags, attr: Option<MqAttr>)
    requires Inv(s) && pid > 0 && (attr.Some? ==> attr.value.maxmsg >= 0)
    ensures Inv(Open(s, pid, hash, creat, excl, flags, attr).s)
  {
    match FindHash(s.queues, hash, 0)
    case Some(i) =>
      SubscribedInv(s, pid, i, flags);
    case None =>
      var f := FindId(s.queues, 0, 0);
      if creat && f.Some? && AttrError(attr).None? {
        CreateInv(s, f.value, hash, attr);
        SubscribedInv(Create(s, f.value, hash, attr), pid, f.value, flags);
      }
  }

  lemma CreateInv(s: Mq, i: QueueIx, hash: nat, attr: Option<MqAttr>)
    requires Inv(s) && s.queues[i].id == 0 && AttrError(attr).None? && (attr.Some? ==> attr.value.maxmsg >= 0)
    requires forall j: QueueIx :: s.queues[j].id == 0 || s.queues[j].hash != hash
    ensures Inv(Create(s, i, hash, attr)) && Create(s, i, hash, attr).queues[i].id == s.count + 1 > 0
  {
    assert QueueOk(s.queues[i]) && 0 <= s.queues[i].id <= s.count;
    CreatedOk(s.queues[i], s.count + 1, hash, attr);
    FreeSlot(s, i);
    FitsInv(s.(count := s.count + 1), i, Created(s.queues[i], s.count + 1, hash, attr));
  }

  lemma SubscribedInv(s: Mq, pid: int, i: QueueIx, flags: Flags)
    requires Inv(s) && pid > 0 && s.queues[i].id != 0
    ensures Inv(Subscribed(s, pid, i, flags).s)
  {
    var q := s.queues[i];
    assert QueueOk(q);
    var k := FindSub(q.subs, 0, 0);
    if k.Some? {
      var r := q.(subs := q.subs[k.value := Sub(pid, flags)]);
      assert r.subs[k.value].pid > 0;
      forall p | p in s.pending && s.pending[p].q == i
        ensures r.subs[s.pending[p].sub].pid == p
      {
        PendingLive(s, p);
      }
      FitsInv(s, i, r);
    }
  }

  lemma ClosedOk(q: Queue, pid: int)
    requires QueueOk(q) && pid > 0
    ensures QueueOk(Closed(q, pid))
    ensures forall k: SubIx :: q.subs[k].pid != pid ==> Closed(q, pid).subs[k] == q.subs[k]
  {
    var u := Unsubscribed(q, pid);
    assert forall k: SubIx :: u.subs[k].pid > 0 ==> q.subs[k].pid == u.subs[k].pid;
  }

  lemma DestroyedOk(q: Queue)
    requires QueueOk(q)
    ensures QueueOk(Destroyed(q))
  {
  }

  lemma CloseInv(s: Mq, pid: int, id: int)
    requires Inv(s) && pid > 0 && pid !in s.pending
    ensures Inv(Close(s, pid, id).s)
  {
    var i := FindId(s.queues, id, 0);
    if i.Some? {
      assert QueueOk(s.queues[i.value]);
      ClosedOk(s.queues[i.value], pid);
      FitsInv(s, i.value, Closed(s.queues[i.value], pid));
    }
  }

  lemma UnlinkInv(s: Mq, hash: nat)
    requires Inv(s)
    ensures Inv(Unlink(s, hash).s)
  {
    var i := FindHash(s.queues, hash, 0);
    if i.Some? {
      assert QueueOk(s.queues[i.value]);
      DestroyedOk(s.queues[i.value]);
      FitsInv(s, i.value, Destroyed(s.queues[i.value]));
    }
  }

  /** A call that wakes up finds its own queue, still alive, at its old place. */
  lemma PendingLive(s: Mq, pid: int)
    requires Inv(s) && pid in s.pending
    ensures var op := s.pending[pid];
            s.queues[op.q].id > 0 && s.queues[op.q].subs[op.sub].pid == pid > 0
  {
    var op := s.pending[pid];
    assert QueueOk(s.queues[op.q]);
    assert s.queues[op.q].subs[op.sub].pid > 0;
  }

  lemma SubscriberLive(s: Mq, i: QueueIx, sub: SubIx)
    requires Inv(s) && s.queues[i].subs[sub].pid > 0
    ensures s.queues[i].id > 0
  {
    assert QueueOk(s.queues[i]);
  }

  /** A step of a send or a receive: nothing happened, or one turn did. */
  predicate Talked(s: Mq, t: Mq, pid: int)
    requires QueuesOk(s)
  {
    t == s || exists i: QueueIx :: QueueOk(s.queues[i]) && Turned(s, t, i, pid)
  }

  lemma SendInv(s: Mq, pid: int, id: int, msg: Text)
    requires Inv(s) && pid > 0
    ensures Inv(Send(s, pid, id, msg).s) && Talked(s, Send(s, pid, id, msg).s, pid)
  {
    var i := FindId(s.queues, id, 0);
    if i.Some? && |msg| <= s.queues[i.value].msgsize {
      var sub := FindSub(s.queues[i.value].subs, pid, 0);
      if sub.Some? {
        SubscriberLive(s, i.value, sub.value);
        SendTurnInv(s, pid, i.value, sub.value, msg);
      }
    }
  }

  lemma ReceiveInv(s: Mq, pid: int, id: int, len: nat)
    requires Inv(s) && pid > 0
    ensures Inv(Receive(s, pid, id, len).s) && Talked(s, Receive(s, pid, id, len).s, pid)
  {
    var i := FindId(s.queues, id, 0);
    if i.Some? {
      var sub := FindSub(s.queues[i.value].subs, pid, 0);
      if sub.Some? {
        SubscriberLive(s, i.value, sub.value);
        ReceiveTurnInv(s, pid, i.value, sub.value, len);
      }
    }
  }

  /** The state with one call fewer asleep. */
  function Without(s: Mq, pid: int): Mq { s.(pending := s.pending - {pid}) }

  lemma WithoutInv(s: Mq, pid: int)
    requires Inv(s)
    ensures Inv(Without(s, pid))
  {
    assert forall p :: p in Without(s, pid).pending ==> p in s.pending && Without(s, pid).pending[p] == s.pending[p];
  }

  lemma WithoutTalked(s: Mq, t: Mq, i: QueueIx, pid: int)
    requires Inv(s) && QueueOk(s.queues[i]) && Turned(Without(s, pid), t, i, pid)
    ensures Talked(s, t, pid)
  {
    forall p | p != pid && p in s.pending
      ensures p in t.pending && t.pending[p] == s.pending[p]
    {
      assert p in Without(s, pid).pending;
    }
    assert Turned(s, t, i, pid);
  }

  lemma ResumeInv(s: Mq, pid: int)
    requires Inv(s) && pid in s.pending
    ensures Inv(Resumed(s, pid).s) && Talked(s, Resumed(s, pid).s, pid)
  {
    var op := s.pending[pid];
    var s' := Without(s, pid);
    PendingLive(s, pid);
    WithoutInv(s, pid);
    assert QueueOk(s.queues[op.q]);
    if op.Sending? {
      SendTurnInv(s', pid, op.q, op.sub, op.msg);
      WithoutTalked(s, SendTurn(s', pid, op.q, op.sub, op.msg).s, op.q, pid);
    } else {
      ReceiveTurnInv(s', pid, op.q, op.sub, op.len);
      WithoutTalked(s, ReceiveTurn(s', pid, op.q, op.sub, op.len).s, op.q, pid);
    }
  }

  /** Every call, every wake-up and every way they interleave keeps the invariant: live IDs and live names
      are distinct, every ring is well formed, and an unlinked queue that is not freed has a subscriber. */
  lemma StepInv(s: Mq, e: Event)
    requires Inv(s) && Enabled(s, e)
    ensures Inv(Step(s, e).s)
  {
    match e
    case DoOpen(pid, hash, creat, excl, flags, attr) => OpenInv(s, pid, hash, creat, excl, flags, attr);
    case DoClose(pid, id) => CloseInv(s, pid, id);
    case DoUnlink(_, hash) => UnlinkInv(s, hash);
    case DoSend(pid, id, msg) => SendInv(s, pid, id, msg);
    case DoReceive(pid, id, len) => ReceiveInv(s, pid, id, len);
    case Resume(pid) => ResumeInv(s, pid);
    case Wake(_) =>
  }
}
