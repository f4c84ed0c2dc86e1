/** Theorems about whole runs of the message queue calls. */
module MqueueHistory {
  import opened Options
  import opened Mqueue
  import opened MqueueRuns
  import opened MqueueFifo

  // ---------------------------------------------------------------- runs

  predicate IsRun(s: Mq, es: seq<Event>)
    requires Inv(s)
    decreases |es|
  {
    es == [] || (Enabled(s, es[0]) && (StepInv(s, es[0]); IsRun(Step(s, es[0]).s, es[1..])))
  }

  function Last(s: Mq, es: seq<Event>): (t: Mq)
    requires Inv(s) && IsRun(s, es)
    ensures Inv(t)
    decreases |es|
  {
    if es == [] then s else (StepInv(s, es[0]); Last(Step(s, es[0]).s, es[1..]))
  }

  function Cons(m: Option<(int, Text)>, id: int, rest: seq<Text>): seq<Text> {
    if m.Some? && m.value.0 == id then [m.value.1] + rest else rest
  }

  /** The messages that calls have reported as sent to queue `id`, in order. */
  function Sends(s: Mq, es: seq<Event>, id: int): seq<Text>
    requires Inv(s) && IsRun(s, es)
    decreases |es|
  {
    if es == [] then [] else
      StepInv(s, es[0]);
      var r := Step(s, es[0]);
      Cons(Sent(s, es[0], r.out), id, Sends(r.s, es[1..], id))
  }

  /** The messages that calls have returned from queue `id`, in order. */
  function Receives(s: Mq, es: seq<Event>, id: int): seq<Text>
    requires Inv(s) && IsRun(s, es)
    decreases |es|
  {
    if es == [] then [] else
      StepInv(s, es[0]);
      var r := Step(s, es[0]);
      Cons(Received(s, es[0], r.out), id, Receives(r.s, es[1..], id))
  }

  /** The messages that have left queue `id`, in order. */
  function Takes(s: Mq, es: seq<Event>, id: int): seq<Text>
    requires Inv(s) && IsRun(s, es)
    decreases |es|
  {
    if es == [] then [] else
      StepInv(s, es[0]);
      var r := Step(s, es[0]);
      Cons(Left(r.effect), id, Takes(r.s, es[1..], id))
  }

  // ---------------------------------------------------------------- queue `id`

  predicate Live(s: Mq, id: int)
    requires |s.queues| == 32
  {
    id > 0 && FindId(s.queues, id, 0).Some?
  }

  /** The messages that wait in queue `id`. */
  function Content(s: Mq, id: int): seq<Text>
    requires Inv(s)
  {
    if !Live(s, id) then []
    else
      var i := FindId(s.queues, id, 0).value;
      assert QueueOk(s.queues[i]);
      Fifo(s.queues[i])
  }

  lemma FoundAt(s: Mq, i: QueueIx)
    requires Inv(s) && s.queues[i].id != 0
    ensures Live(s, s.queues[i].id) && FindId(s.queues, s.queues[i].id, 0) == Some(i)
    ensures QueueOk(s.queues[i]) && Content(s, s.queues[i].id) == Fifo(s.queues[i])
  {
    assert QueueOk(s.queues[i]) && s.queues[i].id >= 0;
  }

  /** IDs are not used again. */
  lemma StepLive(s: Mq, e: Event, id: int)
    requires Inv(s) && Enabled(s, e) && Inv(Step(s, e).s) && id > 0
    ensures Step(s, e).s.count >= s.count
    ensures Live(Step(s, e).s, id) ==> Live(s, id) || id > s.count
  {
    StepMoved(s, e);
    var t := Step(s, e).s;
    if Live(t, id) {
      var i := FindId(t.queues, id, 0).value;
      assert SlotMoved(s, Step(s, e), i);
      if s.queues[i].id == id { FoundAt(s, i); }
    }
    StepCount(s, e);
  }

  lemma ReceiveTurnCount(s: Mq, pid: int, i: QueueIx, sub: SubIx, len: nat)
    requires |s.queues| == 32 && RingOk(s.queues[i])
    ensures ReceiveTurn(s, pid, i, sub, len).s.count == s.count
  {}

  lemma OpenCount(s: Mq, pid: int, hash: nat, creat: bool, excl: bool, flags: Flags, attr: Option<MqAttr>)
    requires QueuesOk(s)
    ensures Open(s, pid, hash, creat, excl, flags, attr).s.count >= s.count
  {}

  lemma SendCount(s: Mq, pid: int, id: int, msg: Text)
    requires QueuesOk(s) && pid > 0
    ensures Send(s, pid, id, msg).s.count == s.count
  {}

  lemma ReceiveCount(s: Mq, pid: int, id: int, len: nat)
    requires QueuesOk(s) && pid > 0
    ensures Receive(s, pid, id, len).s.count == s.count
  {
    var i := FindId(s.queues, id, 0);
    if i.Some? {
      var sub := FindSub(s.queues[i.value].subs, pid, 0);
      if sub.Some? {
        assert QueueOk(s.queues[i.value]) && AnySub(s.queues[i.value].subs);
        ReceiveTurnCount(s, pid, i.value, sub.value, len);
      }
    }
  }

  lemma ResumeCount(s: Mq, pid: int)
    requires Inv(s) && pid in s.pending
    ensures Resumed(s, pid).s.count == s.count
  {
    var op := s.pending[pid];
    PendingLive(s, pid);
    assert QueueOk(s.queues[op.q]);
    if op.Receiving? { ReceiveTurnCount(s.(pending := s.pending - {pid}), pid, op.q, op.sub, op.len); }
  }

  lemma StepCount(s: Mq, e: Event)
    requires Inv(s) && Enabled(s, e)
    ensures Step(s, e).s.count >= s.count
  {
    match e
    case DoOpen(pid, hash, creat, excl, flags, attr) => OpenCount(s, pid, hash, creat, excl, flags, attr);
    case DoSend(pid, id, msg) => SendCount(s, pid, id, msg);
    case DoReceive(pid, id, len) => ReceiveCount(s, pid, id, len);
    case Resume(pid) => ResumeCount(s, pid);
    case _ =>
  }

  /** One step, for one queue. */
  lemma StepContent(s: Mq, e: Event, id: int)
    requires Inv(s) && Enabled(s, e) && Inv(Step(s, e).s) && id > 0
    requires Live(s, id) ==> Live(Step(s, e).s, id)
    ensures Moved(id, Content(s, id), Step(s, e).effect, Content(Step(s, e).s, id))
  {
    StepMoved(s, e);
    var r := Step(s, e);
    if Live(r.s, id) {
      var i := FindId(r.s.queues, id, 0).value;
      FoundAt(r.s, i);
      assert SlotMoved(s, r, i);
      if Live(s, id) {
        var j := FindId(s.queues, id, 0).value;
        assert SlotMoved(s, r, j);
        FoundAt(s, j);
        assert j == i;
      } else {
        assert s.queues[i].id != id;
        EffectOther(s, r.effect, id);
      }
    } else {
      EffectOther(s, r.effect, id);
    }
  }

  lemma EffectOther(s: Mq, effect: Effect, id: int)
    requires Inv(s) && EffectLive(s, effect) && !Live(s, id) && id > 0
    ensures effect == Nothing || effect.id != id
  {
    if effect != Nothing {
      var i: QueueIx :| s.queues[i].id == effect.id != 0;
      FoundAt(s, i);
    }
  }

  lemma {:induction false} DeadStaysDead(s: Mq, es: seq<Event>, id: int)
    requires Inv(s) && IsRun(s, es) && 0 < id <= s.count && !Live(s, id)
    ensures !Live(Last(s, es), id)
    decreases |es|
  {
    if es != [] {
      StepInv(s, es[0]);
      StepLive(s, es[0], id);
      DeadStaysDead(Step(s, es[0]).s, es[1..], id);
    }
  }

  lemma LiveCounted(s: Mq, id: int)
    requires Inv(s) && Live(s, id)
    ensures 0 < id <= s.count
  {
  }

  lemma ChainMoved(id: int, f: seq<Text>, effect: Effect, g: seq<Text>, a: seq<Text>, b: seq<Text>, c: seq<Text>)
    requires Moved(id, f, effect, g) && g + a == b + c
    ensures f + Cons(Joined(effect), id, a) == Cons(Left(effect), id, b) + c
  {
    if effect.Put? && effect.id == id {
      assert f + ([effect.msg] + a) == (f + [effect.msg]) + a;
    } else if effect.Took? && effect.id == id {
      assert ([effect.msg] + g) + a == [effect.msg] + (g + a);
      assert ([effect.msg] + b) + c == [effect.msg] + (b + c);
    }
  }

  lemma StillLive(s: Mq, e: Event, es: seq<Event>, id: int)
    requires Inv(s) && Enabled(s, e) && Inv(Step(s, e).s) && IsRun(Step(s, e).s, es)
    requires Live(Last(Step(s, e).s, es), id) && Live(s, id)
    ensures Live(Step(s, e).s, id)
  {
    LiveCounted(s, id);
    StepLive(s, e, id);
    if !Live(Step(s, e).s, id) { DeadStaysDead(Step(s, e).s, es, id); }
  }

  /** The messages sent to a queue, after the ones that waited already, are the ones that left it followed
      by the ones that wait: in order, none twice and none lost. */
  lemma {:induction false} FifoConserved(s: Mq, es: seq<Event>, id: int)
    requires Inv(s) && IsRun(s, es) && Live(Last(s, es), id)
    ensures Content(s, id) + Sends(s, es, id) == Takes(s, es, id) + Content(Last(s, es), id)
    decreases |es|
  {
    if es != [] {
      StepMoved(s, es[0]);
      var r := Step(s, es[0]);
      if Live(s, id) { StillLive(s, es[0], es[1..], id); }
      StepContent(s, es[0], id);
      FifoConserved(r.s, es[1..], id);
      ChainMoved(id, Content(s, id), r.effect, Content(r.s, id), Sends(r.s, es[1..], id), Takes(r.s, es[1..], id),
                 Content(Last(s, es), id));
    }
  }

  function NonEmpty(ms: seq<Text>): (r: seq<Text>)
    ensures |r| <= |ms|
    ensures |r| == |ms| <==> [] !in ms
    ensures [] !in ms ==> r == ms
  {
    if ms == [] then []
    else
      assert ms == [ms[0]] + ms[1..];
      if ms[0] == [] then NonEmpty(ms[1..]) else [ms[0]] + NonEmpty(ms[1..])
  }

  /** Receivers get what left the queue, but for the messages of length zero. */
  lemma {:induction false} ReceivedOfTaken(s: Mq, es: seq<Event>, id: int)
    requires Inv(s) && IsRun(s, es)
    ensures Receives(s, es, id) == NonEmpty(Takes(s, es, id))
    decreases |es|
  {
    if es != [] {
      StepInv(s, es[0]);
      StepMoved(s, es[0]);
      ReceivedOfTaken(Step(s, es[0]).s, es[1..], id);
    }
  }

  /** Senders and receivers see a FIFO exactly when no message of length zero has left the queue. */
  lemma DeliveredExactly(s: Mq, es: seq<Event>, id: int)
    requires Inv(s) && IsRun(s, es) && Live(Last(s, es), id)
    ensures Content(s, id) + Sends(s, es, id) == Receives(s, es, id) + Content(Last(s, es), id)
            <==> [] !in Takes(s, es, id)
  {
    FifoConserved(s, es, id);
    ReceivedOfTaken(s, es, id);
  }

  /** Messages of positive length come out as they went in, and never more than the queue holds wait. */
  lemma Delivered(s: Mq, es: seq<Event>, id: int)
    requires Inv(s) && IsRun(s, es) && Live(Last(s, es), id)
    requires [] !in Content(s, id) && [] !in Sends(s, es, id)
    ensures Content(s, id) + Sends(s, es, id) == Receives(s, es, id) + Content(Last(s, es), id)
    ensures |Content(Last(s, es), id)| <= 8
  {
    FifoConserved(s, es, id);
    var all := Content(s, id) + Sends(s, es, id);
    forall k | 0 <= k < |Takes(s, es, id)|
      ensures Takes(s, es, id)[k] != []
    {
      assert all[k] == Takes(s, es, id)[k];
      assert all[k] in Content(s, id) || all[k] in Sends(s, es, id);
    }
    DeliveredExactly(s, es, id);
    var i := FindId(Last(s, es).queues, id, 0).value;
    assert QueueOk(Last(s, es).queues[i]);
  }

  // ---------------------------------------------------------------- boot

  function NoSubs(n: nat): (r: seq<Sub>)
    ensures |r| == n && forall i :: 0 <= i < n ==> r[i] == Sub(0, NO_FLAGS)
  {
    if n == 0 then [] else [Sub(0, NO_FLAGS)] + NoSubs(n - 1)
  }

  function Zeros(n: nat): (r: seq<Byte>)
    ensures |r| == n
  {
    if n == 0 then [] else [0] + Zeros(n - 1)
  }

  function NoSlots(n: nat): (r: seq<Slot>)
    ensures |r| == n && forall i :: 0 <= i < n ==> |r[i].bytes| == 128 && r[i].size == 0
  {
    if n == 0 then [] else [Slot(0, Zeros(128))] + NoSlots(n - 1)
  }

  const NO_QUEUE := Queue(0, false, 0, NoSubs(8), 0, 0, 0, 0, 0, NoSlots(8))

  function NoQueues(n: nat): (r: seq<Queue>)
    ensures |r| == n && forall i :: 0 <= i < n ==> r[i] == NO_QUEUE
  {
    if n == 0 then [] else [NO_QUEUE] + NoQueues(n - 1)
  }

  /** The state at boot: the arrays are zero. */
  const BOOT := Mq(NoQueues(32), 0, {}, map[])
}
