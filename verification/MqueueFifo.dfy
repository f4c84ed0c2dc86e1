/** Every message queue is a bounded FIFO, over every run. */
module MqueueFifo {
  import opened Options
  import opened Mqueue
  import opened MqueueRuns

  // ---------------------------------------------------------------- one step

  /** What a bounded FIFO named `id` does: messages join at the end and leave at the front. */
  predicate Moved(id: int, f: seq<Text>, effect: Effect, g: seq<Text>) {
    match effect
    case Nothing => g == f
    case Put(k, msg) => if k == id then g == f + [msg] else g == f
    case Took(k, msg) => if k == id then f == [msg] + g else g == f
  }

  /** A slot before and after a step: the same queue that moved as a FIFO does, or a free slot, or a new
      queue that is empty. */
  predicate SlotMoved(s: Mq, r: Result, i: QueueIx)
    requires QueuesOk(s) && QueuesOk(r.s)
  {
    var q, p := s.queues[i], r.s.queues[i];
    && QueueOk(q) && QueueOk(p)
    && (if p.id == q.id then p.id != 0 ==> p.maxmsg == q.maxmsg && Moved(q.id, Fifo(q), r.effect, Fifo(p))
        else p.id == 0 || (q.id == 0 && p.id == s.count + 1 && Fifo(p) == []))
  }

  predicate EffectLive(s: Mq, effect: Effect)
    requires |s.queues| == 32
  {
    effect == Nothing || exists i: QueueIx :: s.queues[i].id == effect.id != 0
  }

  /** A step that only touched slot `i`. */
  predicate Local(s: Mq, r: Result, i: QueueIx)
    requires |s.queues| == 32
  {
    && |r.s.queues| == 32
    && (forall j: QueueIx :: j != i ==> r.s.queues[j] == s.queues[j])
    && (r.effect == Nothing || r.effect.id == s.queues[i].id != 0)
  }

  lemma LocalMoved(s: Mq, r: Result, i: QueueIx)
    requires Inv(s) && Inv(r.s) && Local(s, r, i) && SlotMoved(s, r, i)
    ensures EffectLive(s, r.effect) && forall j: QueueIx :: SlotMoved(s, r, j)
  {
    forall j: QueueIx
      ensures SlotMoved(s, r, j)
    {
      assert QueueOk(s.queues[j]) && QueueOk(r.s.queues[j]);
    }
  }

  lemma SendTurnMoved(s: Mq, pid: int, i: QueueIx, sub: SubIx, msg: Text)
    requires Inv(s) && pid > 0 && s.queues[i].subs[sub].pid == pid && s.queues[i].id != 0
    requires |msg| <= s.queues[i].msgsize
    ensures var r := SendTurn(s, pid, i, sub, msg);
            Inv(r.s) && Local(s, r, i) && SlotMoved(s, r, i)
    ensures var r := SendTurn(s, pid, i, sub, msg);
            && (r.out == Done <==> s.queues[i].curmsg < s.queues[i].maxmsg)
            && r.effect == if r.out == Done then Put(s.queues[i].id, msg) else Nothing
  {
    var q := s.queues[i];
    SendTurnInv(s, pid, i, sub, msg);
    assert QueueOk(q);
    TailWrappedFifo(q);
    if q.curmsg < q.maxmsg { EnqueueFifo(q, msg); }
    else { SubsFifo(TailWrapped(q), SendTurn(s, pid, i, sub, msg).s.queues[i].subs); }
  }

  /** The subscriptions have no part in what waits. */
  lemma SubsFifo(q: Queue, subs: seq<Sub>)
    requires RingOk(q) && |subs| == 8
    ensures RingOk(q.(subs := subs)) && Fifo(q.(subs := subs)) == Fifo(q)
  {
    var r := q.(subs := subs);
    assert forall k: nat :: k < q.curmsg ==> MessageAt(r, k) == MessageAt(q, k);
  }

  /** What a receive does to the messages of its queue. */
  function Leaving(q: Queue, len: nat): Effect
    requires RingOk(q)
  {
    if q.curmsg == 0 || |Fifo(q)[0]| > len then Nothing else Took(q.id, Fifo(q)[0])
  }

  /** The slot after `head` holds the oldest message. */
  lemma Oldest(q: Queue)
    requires RingOk(q) && q.curmsg > 0
    ensures var w := HeadWrapped(q);
            && RingOk(w) && RingOk(Dequeued(w)) && w.head < 7 && Fifo(w) == Fifo(q)
            && Fifo(q)[0] == w.slots[w.head + 1].bytes[..w.slots[w.head + 1].size]
            && Fifo(q) == [Fifo(q)[0]] + Fifo(Dequeued(w))
  {
    HeadWrappedFifo(q);
    DequeueFifo(q);
    var w := HeadWrapped(q);
    assert MessageAt(w, 0) == w.slots[w.head + 1].bytes[..w.slots[w.head + 1].size];
  }

  lemma NoMessageSame(s: Mq, pid: int, i: QueueIx, sub: SubIx, len: nat, effect: Effect)
    requires |s.queues| == 32 && RingOk(s.queues[i])
    ensures var r := NoMessage(s, pid, i, sub, len, effect);
            && |r.s.queues| == 32 && RingOk(r.s.queues[i]) && Fifo(r.s.queues[i]) == Fifo(s.queues[i])
            && (forall j: QueueIx :: j != i ==> r.s.queues[j] == s.queues[j])
            && r.s.queues[i].id == s.queues[i].id && r.s.queues[i].maxmsg == s.queues[i].maxmsg
            && r.effect == effect && !r.out.Got?
  {
    SubsFifo(s.queues[i], NoMessage(s, pid, i, sub, len, effect).s.queues[i].subs);
  }

  lemma ReceiveTurnEffect(s: Mq, pid: int, i: QueueIx, sub: SubIx, len: nat)
    requires |s.queues| == 32 && RingOk(s.queues[i]) && s.queues[i].id != 0
    ensures var r := ReceiveTurn(s, pid, i, sub, len);
            && Local(s, r, i)
            && r.s.queues[i].id == s.queues[i].id && r.s.queues[i].maxmsg == s.queues[i].maxmsg
            && RingOk(r.s.queues[i]) && Moved(s.queues[i].id, Fifo(s.queues[i]), r.effect, Fifo(r.s.queues[i]))
            && r.effect == Leaving(s.queues[i], len)
            && (r.out.Got? <==> r.effect.Took? && |r.effect.msg| > 0)
            && (r.out.Got? ==> r.out.text == r.effect.msg && |r.out.text| <= len)
  {
    var q := s.queues[i];
    if q.curmsg == 0 {
      NoMessageSame(s, pid, i, sub, len, Nothing);
    } else {
      Oldest(q);
      var w := HeadWrapped(q);
      var m := w.slots[w.head + 1];
      if m.size > len {
        NoMessageSame(WithQueue(s, i, w), pid, i, sub, len, Nothing);
      } else if m.size == 0 {
        NoMessageSame(WithQueue(s, i, Dequeued(w)), pid, i, sub, len, Took(w.id, []));
      }
    }
  }

  lemma ReceiveTurnMoved(s: Mq, pid: int, i: QueueIx, sub: SubIx, len: nat)
    requires Inv(s) && pid > 0 && s.queues[i].subs[sub].pid == pid && s.queues[i].id != 0
    ensures var r := ReceiveTurn(s, pid, i, sub, len);
            Inv(r.s) && Local(s, r, i) && SlotMoved(s, r, i)
    ensures QueueOk(s.queues[i])
    ensures var r := ReceiveTurn(s, pid, i, sub, len);
            && r.effect == Leaving(s.queues[i], len)
            && (r.out.Got? <==> r.effect.Took? && |r.effect.msg| > 0)
            && (r.out.Got? ==> r.out.text == r.effect.msg && |r.out.text| <= len)
  {
    ReceiveTurnInv(s, pid, i, sub, len);
    assert QueueOk(s.queues[i]);
    ReceiveTurnEffect(s, pid, i, sub, len);
    assert QueueOk(ReceiveTurn(s, pid, i, sub, len).s.queues[i]);
  }

  // ---------------------------------------------------------------- what callers see

  /** The message a call has just reported as sent, and its queue. */
  function Sent(s: Mq, e: Event, out: Outcome): Option<(int, Text)>
    requires Inv(s) && Enabled(s, e)
  {
    if out != Done then None
    else match e
      case DoSend(_, id, msg) => Some((id, msg))
      case Resume(pid) =>
        var op := s.pending[pid];
        if op.Sending? then Some((s.queues[op.q].id, op.msg)) else None
      case _ => None
  }

  /** The message a call has just returned, and its queue. */
  function Received(s: Mq, e: Event, out: Outcome): Option<(int, Text)>
    requires Inv(s) && Enabled(s, e)
  {
    if !out.Got? then None
    else match e
      case DoReceive(_, id, _) => Some((id, out.text))
      case Resume(pid) => Some((s.queues[s.pending[pid].q].id, out.text))
      case _ => None
  }

  function Joined(effect: Effect): Option<(int, Text)> {
    if effect.Put? then Some((effect.id, effect.msg)) else None
  }

  function Left(effect: Effect): Option<(int, Text)> {
    if effect.Took? then Some((effect.id, effect.msg)) else None
  }

  /** What callers see is what happened to the messages, but for messages of length zero. */
  predicate Told(s: Mq, e: Event, r: Result)
    requires Inv(s) && Enabled(s, e)
  {
    && Sent(s, e, r.out) == Joined(r.effect)
    && Received(s, e, r.out) == (if r.effect.Took? && |r.effect.msg| > 0 then Left(r.effect) else None)
  }

  predicate StepsOk(s: Mq, e: Event, r: Result)
    requires Inv(s) && Enabled(s, e)
  {
    Inv(r.s) && EffectLive(s, r.effect) && (forall j: QueueIx :: SlotMoved(s, r, j)) && Told(s, e, r)
  }

  lemma SlotSame(s: Mq, r: Result, i: QueueIx)
    requires Inv(s) && Inv(r.s) && Local(s, r, i) && r.effect == Nothing
    requires var q, p := s.queues[i], r.s.queues[i];
             p.id == 0 || (p == q.(open := p.open, subs := p.subs))
             || (q.id == 0 && p.id == s.count + 1 && p.curmsg == 0)
    ensures forall j: QueueIx :: SlotMoved(s, r, j)
  {
    var q, p := s.queues[i], r.s.queues[i];
    assert QueueOk(q) && QueueOk(p);
    if p.id != 0 && p.id == q.id {
      assert forall k: nat :: k < q.curmsg ==> MessageAt(p, k) == MessageAt(q, k);
    }
    LocalMoved(s, r, i);
  }

  lemma Unmoved(s: Mq, r: Result)
    requires Inv(s) && Inv(r.s) && r.s.queues == s.queues && r.effect == Nothing
    ensures EffectLive(s, r.effect) && forall j: QueueIx :: SlotMoved(s, r, j)
  {
    assert forall j: QueueIx :: QueueOk(s.queues[j]);
  }

  lemma SendTold(s: Mq, e: Event, r: Result, i: QueueIx)
    requires Inv(s) && Enabled(s, e) && e.DoSend? && s.queues[i].id == e.id
    requires Inv(r.s) && Local(s, r, i) && SlotMoved(s, r, i)
    requires r.effect == (if r.out == Done then Put(s.queues[i].id, e.msg) else Nothing) && !r.out.Got?
    ensures StepsOk(s, e, r)
  {
    LocalMoved(s, r, i);
  }

  /** A call that is refused moves nothing. */
  lemma RefusedMoved(s: Mq, e: Event, r: Result)
    requires Inv(s) && Enabled(s, e) && r.s == s && r.effect == Nothing && r.out.Failed?
    ensures StepsOk(s, e, r)
  {
    Unmoved(s, r);
  }

  /** The place of the caller's subscription, if `mqueue_send` comes to its loop. */
  function SendPlace(s: Mq, pid: int, id: int, msg: Text): Option<(QueueIx, SubIx)>
    requires QueuesOk(s)
  {
    match FindId(s.queues, id, 0)
    case None => None
    case Some(i) =>
      if |msg| > s.queues[i].msgsize then None
      else match FindSub(s.queues[i].subs, pid, 0)
        case None => None
        case Some(sub) => if s.queues[i].subs[sub].flags.rdonly then None else Some((i, sub))
  }

  lemma SendAtPlace(s: Mq, pid: int, id: int, msg: Text)
    requires Inv(s) && pid > 0
    ensures var r := Send(s, pid, id, msg);
            match SendPlace(s, pid, id, msg)
            case None => r.s == s && r.effect == Nothing && r.out.Failed?
            case Some((i, sub)) =>
              && s.queues[i].id == id != 0 && s.queues[i].subs[sub].pid == pid && |msg| <= s.queues[i].msgsize
              && QueueOk(s.queues[i]) && r == SendTurn(s, pid, i, sub, msg)
  {
    var place := SendPlace(s, pid, id, msg);
    if place.Some? { SubscriberLive(s, place.value.0, place.value.1); }
  }

  lemma SendMoved(s: Mq, pid: int, id: int, msg: Text)
    requires Inv(s) && Enabled(s, DoSend(pid, id, msg))
    ensures StepsOk(s, DoSend(pid, id, msg), Send(s, pid, id, msg))
  {
    SendAtPlace(s, pid, id, msg);
    match SendPlace(s, pid, id, msg)
    case None => RefusedMoved(s, DoSend(pid, id, msg), Send(s, pid, id, msg));
    case Some((i, sub)) =>
      SendTurnMoved(s, pid, i, sub, msg);
      SendTold(s, DoSend(pid, id, msg), SendTurn(s, pid, i, sub, msg), i);
  }

  /** The place of the caller's subscription, if `mqueue_receive` comes to its loop. */
  function ReceivePlace(s: Mq, pid: int, id: int): Option<(QueueIx, SubIx)>
    requires QueuesOk(s)
  {
    match FindId(s.queues, id, 0)
    case None => None
    case Some(i) =>
      match FindSub(s.queues[i].subs, pid, 0)
      case None => None
      case Some(sub) => if s.queues[i].subs[sub].flags.wronly then None else Some((i, sub))
  }

  lemma ReceiveAtPlace(s: Mq, pid: int, id: int, len: nat)
    requires Inv(s) && pid > 0
    ensures var r := Receive(s, pid, id, len);
            match ReceivePlace(s, pid, id)
            case None => r.s == s && r.effect == Nothing && r.out.Failed?
            case Some((i, sub)) =>
              && s.queues[i].id == id != 0 && s.queues[i].subs[sub].pid == pid
              && QueueOk(s.queues[i]) && r == ReceiveTurn(s, pid, i, sub, len)
  {
    var place := ReceivePlace(s, pid, id);
    if place.Some? { SubscriberLive(s, place.value.0, place.value.1); }
  }

  lemma ReceiveTold(s: Mq, e: Event, r: Result, i: QueueIx)
    requires Inv(s) && Enabled(s, e) && e.DoReceive? && s.queues[i].id == e.id
    requires Inv(r.s) && Local(s, r, i) && SlotMoved(s, r, i)
    requires r.effect == Nothing || (r.effect.Took? && r.effect.id == s.queues[i].id)
    requires r.out.Got? <==> r.effect.Took? && |r.effect.msg| > 0
    requires r.out.Got? ==> r.out.text == r.effect.msg
    ensures StepsOk(s, e, r)
  {
    LocalMoved(s, r, i);
  }

  lemma ReceiveMoved(s: Mq, pid: int, id: int, len: nat)
    requires Inv(s) && Enabled(s, DoReceive(pid, id, len))
    ensures StepsOk(s, DoReceive(pid, id, len), Receive(s, pid, id, len))
  {
    ReceiveAtPlace(s, pid, id, len);
    match ReceivePlace(s, pid, id)
    case None => RefusedMoved(s, DoReceive(pid, id, len), Receive(s, pid, id, len));
    case Some((i, sub)) =>
      ReceiveTurnMoved(s, pid, i, sub, len);
      ReceiveTold(s, DoReceive(pid, id, len), ReceiveTurn(s, pid, i, sub, len), i);
  }

  /** A turn after a sleep, seen from the state in which the call still slept. */
  lemma ResumeTold(s: Mq, pid: int, r: Result)
    requires Inv(s) && Enabled(s, Resume(pid)) && Inv(s.(pending := s.pending - {pid})) && Inv(r.s)
    requires var op := s.pending[pid]; var s' := s.(pending := s.pending - {pid});
             && Local(s', r, op.q) && SlotMoved(s', r, op.q) && s.queues[op.q].id != 0
             && (op.Sending? ==>
                   r.effect == (if r.out == Done then Put(s.queues[op.q].id, op.msg) else Nothing) && !r.out.Got?)
             && (op.Receiving? ==>
                   && (r.effect == Nothing || (r.effect.Took? && r.effect.id == s.queues[op.q].id)) && r.out != Done
                   && (r.out.Got? <==> r.effect.Took? && |r.effect.msg| > 0)
                   && (r.out.Got? ==> r.out.text == r.effect.msg))
    ensures StepsOk(s, Resume(pid), r)
  {
    var s' := s.(pending := s.pending - {pid});
    LocalMoved(s', r, s.pending[pid].q);
    assert forall j: QueueIx :: SlotMoved(s', r, j) ==> SlotMoved(s, r, j);
  }

  lemma AwakeInv(s: Mq, pid: int)
    requires Inv(s) && pid in s.pending
    ensures var op := s.pending[pid]; var s' := s.(pending := s.pending - {pid});
            && Inv(s') && s'.queues[op.q].id != 0 && s'.queues[op.q].subs[op.sub].pid == pid > 0
            && (op.Sending? ==> |op.msg| <= s'.queues[op.q].msgsize)
  {
    PendingLive(s, pid);
    assert PendingOk(s.(pending := s.pending - {pid}));
  }

  lemma ResumeSend(s: Mq, pid: int)
    requires Inv(s) && Enabled(s, Resume(pid)) && s.pending[pid].Sending?
    ensures StepsOk(s, Resume(pid), Resumed(s, pid))
  {
    var op := s.pending[pid];
    var s' := s.(pending := s.pending - {pid});
    AwakeInv(s, pid);
    SendTurnMoved(s', pid, op.q, op.sub, op.msg);
    ResumeTold(s, pid, SendTurn(s', pid, op.q, op.sub, op.msg));
  }

  lemma ResumeReceive(s: Mq, pid: int)
    requires Inv(s) && Enabled(s, Resume(pid)) && s.pending[pid].Receiving?
    ensures StepsOk(s, Resume(pid), Resumed(s, pid))
  {
    var op := s.pending[pid];
    var s' := s.(pending := s.pending - {pid});
    AwakeInv(s, pid);
    ReceiveTurnMoved(s', pid, op.q, op.sub, op.len);
    ResumeTold(s, pid, ReceiveTurn(s', pid, op.q, op.sub, op.len));
  }

  lemma ResumeMoved(s: Mq, pid: int)
    requires Inv(s) && Enabled(s, Resume(pid))
    ensures StepsOk(s, Resume(pid), Resumed(s, pid))
  {
    if s.pending[pid].Sending? { ResumeSend(s, pid); } else { ResumeReceive(s, pid); }
  }

  lemma SubscribedLocal(s: Mq, pid: int, i: QueueIx, flags: Flags)
    requires |s.queues| == 32 && Arrays(s.queues[i])
    ensures var r := Subscribed(s, pid, i, flags);
            && Local(s, r, i) && r.s.queues[i] == s.queues[i].(subs := r.s.queues[i].subs)
            && r.effect == Nothing && !r.out.Done? && !r.out.Got?
  {
  }

  lemma OpenMoved(s: Mq, pid: int, hash: nat, creat: bool, excl: bool, flags: Flags, attr: Option<MqAttr>)
    requires Inv(s) && Enabled(s, DoOpen(pid, hash, creat, excl, flags, attr))
    ensures StepsOk(s, DoOpen(pid, hash, creat, excl, flags, attr), Open(s, pid, hash, creat, excl, flags, attr))
  {
    OpenInv(s, pid, hash, creat, excl, flags, attr);
    var r := Open(s, pid, hash, creat, excl, flags, attr);
    match FindHash(s.queues, hash, 0)
    case Some(i) =>
      if (creat && excl) || !s.queues[i].open {
        Unmoved(s, r);
      } else {
        SubscribedLocal(s, pid, i, flags);
        SlotSame(s, r, i);
      }
    case None =>
      var f := FindId(s.queues, 0, 0);
      if creat && f.Some? && AttrError(attr).None? {
        SubscribedLocal(Create(s, f.value, hash, attr), pid, f.value, flags);
        SlotSame(s, r, f.value);
      } else {
        Unmoved(s, r);
      }
  }

  lemma CloseMoved(s: Mq, pid: int, id: int)
    requires Inv(s) && Enabled(s, DoClose(pid, id))
    ensures StepsOk(s, DoClose(pid, id), Close(s, pid, id))
  {
    CloseInv(s, pid, id);
    match FindId(s.queues, id, 0)
    case None => Unmoved(s, Close(s, pid, id));
    case Some(i) => SlotSame(s, Close(s, pid, id), i);
  }

  lemma UnlinkMoved(s: Mq, pid: int, hash: nat)
    requires Inv(s) && Enabled(s, DoUnlink(pid, hash))
    ensures StepsOk(s, DoUnlink(pid, hash), Unlink(s, hash))
  {
    UnlinkInv(s, hash);
    match FindHash(s.queues, hash, 0)
    case None => Unmoved(s, Unlink(s, hash));
    case Some(i) => SlotSame(s, Unlink(s, hash), i);
  }

  /** Every step moves every live queue as a bounded FIFO moves, and tells the callers so. */
  lemma StepMoved(s: Mq, e: Event)
    requires Inv(s) && Enabled(s, e)
    ensures StepsOk(s, e, Step(s, e))
  {
    match e
    case DoOpen(pid, hash, creat, excl, flags, attr) => OpenMoved(s, pid, hash, creat, excl, flags, attr);
    case DoClose(pid, id) => CloseMoved(s, pid, id);
    case DoUnlink(pid, hash) => UnlinkMoved(s, pid, hash);
    case DoSend(pid, id, msg) => SendMoved(s, pid, id, msg);
    case DoReceive(pid, id, len) => ReceiveMoved(s, pid, id, len);
    case Resume(pid) => ResumeMoved(s, pid);
    case Wake(_) => Unmoved(s, Step(s, e));
  }
}
