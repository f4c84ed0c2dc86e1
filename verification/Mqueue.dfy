/** Message queues (mqueue.c) as a state machine.  A call runs to its end or to the point where
    the caller is put to sleep; when it wakes up it goes on with the next turn of its loop. */
module Mqueue {
  import opened Options

  type Byte = b: int | 0 <= b < 0x100
  type Text = seq<Byte>

  const MQ_MAX_OPEN := 32
  const MQ_MAX_SUBSCRIBERS := 8
  const MQ_MAX_MSG_SIZE := 128
  const MQ_MAX_MSG := 8

  type QueueIx = i: nat | i < 32
  type SubIx = i: nat | i < 8

  /** Access flags; the last two say what the subscriber is blocked on. */
  datatype Flags = Flags(rdonly: bool, wronly: bool, nonblock: bool, blckRecv: bool, blckSend: bool)

  datatype Sub = Sub(pid: int, flags: Flags)

  /** A message slot: the size, and 128 bytes of which the first ones count. */
  datatype Slot = Slot(size: nat, bytes: seq<Byte>)

  datatype Queue = Queue(id: int, open: bool, hash: nat, subs: seq<Sub>, maxmsg: int, msgsize: int, curmsg: int,
                         head: int, tail: int, slots: seq<Slot>)

  // ---------------------------------------------------------------- one queue as a ring of slots

  /** The arrays have their fixed lengths, and no message is longer than a slot. */
  predicate Arrays(q: Queue) {
    && |q.subs| == 8 && |q.slots| == 8
    && forall i :: 0 <= i < 8 ==> |q.slots[i].bytes| == 128 && q.slots[i].size <= 128
  }

  /** `tail` is `curmsg` places after `head`, going round at `maxmsg`; both may stand at -1 for the place
      before the first slot. */
  predicate RingOk(q: Queue) {
    && Arrays(q)
    && 1 <= q.maxmsg <= 8 && 0 <= q.curmsg <= q.maxmsg
    && -1 <= q.head < q.maxmsg && -1 <= q.tail < q.maxmsg
    && (q.tail == q.head + q.curmsg + q.maxmsg || q.tail == q.head + q.curmsg
        || q.tail == q.head + q.curmsg - q.maxmsg || q.tail == q.head + q.curmsg - 2 * q.maxmsg)
  }

  /** Slot of the `i`th waiting message. */
  function Place(q: Queue, i: nat): int {
    if q.head + 1 + i >= q.maxmsg then q.head + 1 + i - q.maxmsg else q.head + 1 + i
  }

  function MessageAt(q: Queue, i: nat): Text
    requires RingOk(q) && i < q.maxmsg
  {
    var s := q.slots[Place(q, i)];
    s.bytes[..s.size]
  }

  /** The messages that wait, oldest first, from the `i`th on. */
  function FifoFrom(q: Queue, i: nat): (r: seq<Text>)
    requires RingOk(q) && i <= q.curmsg
    ensures |r| == q.curmsg - i
    ensures forall k :: 0 <= k < |r| ==> r[k] == MessageAt(q, i + k)
    decreases q.curmsg - i
  {
    if i == q.curmsg then [] else [MessageAt(q, i)] + FifoFrom(q, i + 1)
  }

  function Fifo(q: Queue): (r: seq<Text>)
    requires RingOk(q)
    ensures |r| == q.curmsg && forall k :: 0 <= k < |r| ==> r[k] == MessageAt(q, k)
  {
    FifoFrom(q, 0)
  }

  // ---------------------------------------------------------------- _enqueue and _dequeue

  /** First step of `_enqueue`, taken even when the queue is full. */
  function TailWrapped(q: Queue): Queue {
    if q.tail == q.maxmsg - 1 then q.(tail := -1) else q
  }

  function Unflagged(subs: seq<Sub>): (r: seq<Sub>)
    ensures |r| == |subs|
    ensures forall i :: 0 <= i < |r| ==> r[i] == subs[i].(flags := subs[i].flags.(blckRecv := false))
  {
    if subs == [] then []
    else [subs[0].(flags := subs[0].flags.(blckRecv := false))] + Unflagged(subs[1..])
  }

  /** `_enqueue` on a queue that has room: the slot after `tail` is overwritten, and whoever waits for a
      message is woken if there was none. */
  function Enqueued(q: Queue, msg: Text): Queue
    requires Arrays(q) && -1 <= q.tail < 7 && |msg| <= 128
  {
    var s := Slot(|msg|, msg + q.slots[q.tail + 1].bytes[|msg|..]);
    q.(tail := q.tail + 1, slots := q.slots[q.tail + 1 := s], curmsg := q.curmsg + 1,
       subs := if q.curmsg == 0 then Unflagged(q.subs) else q.subs)
  }

  function HeadWrapped(q: Queue): Queue {
    if q.head == q.maxmsg - 1 then q.(head := -1) else q
  }

  lemma TailWrappedFifo(q: Queue)
    requires RingOk(q)
    ensures RingOk(TailWrapped(q)) && Fifo(TailWrapped(q)) == Fifo(q)
    ensures q.curmsg < q.maxmsg ==> TailWrapped(q).tail + 1 == Place(q, q.curmsg) < q.maxmsg
  {
    var r := TailWrapped(q);
    assert forall k: nat :: k < q.curmsg ==> MessageAt(r, k) == MessageAt(q, k);
  }

  /** A message that is taken in joins at the end. */
  lemma EnqueueFifo(q: Queue, msg: Text)
    requires RingOk(q) && q.curmsg < q.maxmsg && |msg| <= 128
    ensures var r := Enqueued(TailWrapped(q), msg);
            RingOk(r) && Fifo(r) == Fifo(q) + [msg]
  {
    TailWrappedFifo(q);
    var w := TailWrapped(q);
    var r := Enqueued(w, msg);
    assert RingOk(r);
    forall k: nat | k < q.curmsg
      ensures MessageAt(r, k) == MessageAt(w, k) == MessageAt(q, k)
    {
      assert Place(r, k) == Place(w, k) != w.tail + 1;
      assert Fifo(w)[k] == Fifo(q)[k];
    }
    assert MessageAt(r, q.curmsg) == msg;
  }

  lemma HeadWrappedFifo(q: Queue)
    requires RingOk(q)
    ensures RingOk(HeadWrapped(q)) && Fifo(HeadWrapped(q)) == Fifo(q)
    ensures -1 <= HeadWrapped(q).head < q.maxmsg - 1
  {
    var r := HeadWrapped(q);
    assert forall k: nat :: k < q.curmsg ==> MessageAt(r, k) == MessageAt(q, k);
  }

  function Dequeued(q: Queue): Queue {
    q.(head := q.head + 1, curmsg := q.curmsg - 1)
  }

  /** A message that is handed out was the oldest. */
  lemma DequeueFifo(q: Queue)
    requires RingOk(q) && q.curmsg > 0
    ensures var w := HeadWrapped(q);
            && RingOk(Dequeued(w)) && Fifo(q) == [MessageAt(w, 0)] + Fifo(Dequeued(w))
            && Place(w, 0) == w.head + 1
  {
    HeadWrappedFifo(q);
    var w := HeadWrapped(q);
    var r := Dequeued(w);
    assert RingOk(r);
    forall k: nat | k < r.curmsg
      ensures MessageAt(r, k) == MessageAt(w, k + 1)
    {
      assert Place(r, k) == Place(w, k + 1);
    }
    assert Fifo(w) == [MessageAt(w, 0)] + Fifo(r);
  }

  // ---------------------------------------------------------------- all queues

  /** A call that has put its caller to sleep goes on with the same queue and subscription. */
  datatype Op = Sending(q: QueueIx, sub: SubIx, msg: Text) | Receiving(q: QueueIx, sub: SubIx, len: nat)

  /** `open_queues`, `mqueue_count`, the tasks that are in state TASK_BLOCKED, and the calls that sleep. */
  datatype Mq = Mq(queues: seq<Queue>, count: int, blocked: set<int>, pending: map<int, Op>)

  datatype Errno = EACCES | EAGAIN | EBADF | EEXIST | EINVAL | EMSGSIZE | ENFILE | ENOENT | ENOSPC

  datatype Outcome = Opened(id: int) | Done | Got(text: Text) | Failed(err: Errno) | Asleep

  /** What happened to the messages of a queue. */
  datatype Effect = Nothing | Put(id: int, msg: Text) | Took(id: int, msg: Text)

  datatype Result = Result(s: Mq, out: Outcome, effect: Effect)

  /** `_find` */
  function FindId(qs: seq<Queue>, id: int, i: nat): (r: Option<QueueIx>)
    requires |qs| == 32 && i <= 32
    ensures r.Some? ==> i <= r.value && qs[r.value].id == id
    ensures r.None? ==> forall j :: i <= j < 32 ==> qs[j].id != id
    decreases 32 - i
  {
    if i == 32 then None else if qs[i].id == id then Some(i) else FindId(qs, id, i + 1)
  }

  /** `_find_hash` */
  function FindHash(qs: seq<Queue>, hash: nat, i: nat): (r: Option<QueueIx>)
    requires |qs| == 32 && i <= 32
    ensures r.Some? ==> i <= r.value && qs[r.value].id != 0 && qs[r.value].hash == hash
    ensures r.None? ==> forall j :: i <= j < 32 ==> qs[j].id == 0 || qs[j].hash != hash
    decreases 32 - i
  {
    if i == 32 then None else if qs[i].id != 0 && qs[i].hash == hash then Some(i) else FindHash(qs, hash, i + 1)
  }

  /** `_find_subscriber` for a positive process ID. */
  function FindSub(subs: seq<Sub>, pid: int, i: nat): (r: Option<SubIx>)
    requires |subs| == 8 && i <= 8
    ensures r.Some? ==> i <= r.value && subs[r.value].pid == pid
    ensures r.None? ==> forall j :: i <= j < 8 ==> subs[j].pid != pid
    decreases 8 - i
  {
    if i == 8 then None else if subs[i].pid == pid then Some(i) else FindSub(subs, pid, i + 1)
  }

  /** `_find_subscriber` for process ID 0: is there any subscriber? */
  predicate AnySub(subs: seq<Sub>) { exists i :: 0 <= i < |subs| && subs[i].pid > 0 }

  function WithQueue(s: Mq, i: QueueIx, q: Queue): Mq
    requires |s.queues| == 32
  {
    s.(queues := s.queues[i := q])
  }

  /** The tasks `_unblock_subscribers` wakes. */
  function Flagged(subs: seq<Sub>): set<int> {
    set i | 0 <= i < |subs| && subs[i].flags.blckRecv :: subs[i].pid
  }

  /** One turn of the loop of `mqueue_send`. */
  function SendTurn(s: Mq, pid: int, i: QueueIx, sub: SubIx, msg: Text): Result
    requires |s.queues| == 32 && Arrays(s.queues[i]) && -1 <= s.queues[i].tail < s.queues[i].maxmsg <= 8 && |msg| <= 128
  {
    var q := TailWrapped(s.queues[i]);
    if q.curmsg == q.maxmsg then
      if q.subs[sub].flags.nonblock then Result(WithQueue(s, i, q), Failed(EAGAIN), Nothing)
      else
        var flagged := q.subs[sub := q.subs[sub].(flags := q.subs[sub].flags.(blckSend := true))];
        Result(WithQueue(s, i, q.(subs := flagged)).(blocked := s.blocked + {pid},
                                                     pending := s.pending[pid := Sending(i, sub, msg)]),
               Asleep, Nothing)
    else
      var woken := if q.curmsg == 0 then Flagged(q.subs) else {};
      Result(WithQueue(s, i, Enqueued(q, msg)).(blocked := s.blocked - woken), Done, Put(q.id, msg))
  }

  /** The end of a turn of the loop of `mqueue_receive` that got no message out. */
  function NoMessage(s: Mq, pid: int, i: QueueIx, sub: SubIx, len: nat, effect: Effect): Result
    requires |s.queues| == 32 && Arrays(s.queues[i])
  {
    var q := s.queues[i];
    if q.subs[sub].flags.nonblock then Result(s, Failed(EAGAIN), effect)
    else
      var flagged := q.subs[sub := q.subs[sub].(flags := q.subs[sub].flags.(blckRecv := true))];
      Result(WithQueue(s, i, q.(subs := flagged)).(blocked := s.blocked + {pid},
                                                   pending := s.pending[pid := Receiving(i, sub, len)]),
             Asleep, effect)
  }

  /** One turn of the loop of `mqueue_receive`.  A message that is too long for the buffer stays, one of
      length zero is taken out, and in both cases the call goes on as if the queue were empty. */
  function ReceiveTurn(s: Mq, pid: int, i: QueueIx, sub: SubIx, len: nat): Result
    requires |s.queues| == 32 && RingOk(s.queues[i])
  {
    if s.queues[i].curmsg == 0 then NoMessage(s, pid, i, sub, len, Nothing)
    else
      var q := HeadWrapped(s.queues[i]);
      var m := q.slots[q.head + 1];
      if m.size > len then NoMessage(WithQueue(s, i, q), pid, i, sub, len, Nothing)
      else
        var s' := WithQueue(s, i, Dequeued(q));
        if m.size == 0 then NoMessage(s', pid, i, sub, len, Took(q.id, []))
        else Result(s', Got(m.bytes[..m.size]), Took(q.id, m.bytes[..m.size]))
  }

  // ---------------------------------------------------------------- the calls

  /** What every state keeps about single queues.  A slot whose ID is 0 is free. */
  predicate QueueOk(q: Queue) {
    && Arrays(q)
    && (q.id != 0 ==> RingOk(q) && q.msgsize <= 128)
    && (q.id == 0 ==> !q.open && q.hash == 0 && !AnySub(q.subs))
    && (q.id != 0 && !q.open ==> AnySub(q.subs))
  }

  predicate QueuesOk(s: Mq) { |s.queues| == 32 && forall i: QueueIx :: QueueOk(s.queues[i]) }

  /** `mqueue_send` */
  function Send(s: Mq, pid: int, id: int, msg: Text): Result
    requires QueuesOk(s) && pid > 0
  {
    match FindId(s.queues, id, 0)
    case None => Result(s, Failed(EBADF), Nothing)
    case Some(i) =>
      if |msg| > s.queues[i].msgsize then Result(s, Failed(EMSGSIZE), Nothing)
      else match FindSub(s.queues[i].subs, pid, 0)
        case None => Result(s, Failed(EACCES), Nothing)
        case Some(sub) =>
          if s.queues[i].subs[sub].flags.rdonly then Result(s, Failed(EACCES), Nothing)
          else
            assert AnySub(s.queues[i].subs);
            SendTurn(s, pid, i, sub, msg)
  }

  /** `mqueue_receive` */
  function Receive(s: Mq, pid: int, id: int, len: nat): Result
    requires QueuesOk(s) && pid > 0
  {
    match FindId(s.queues, id, 0)
    case None => Result(s, Failed(EBADF), Nothing)
    case Some(i) =>
      match FindSub(s.queues[i].subs, pid, 0)
      case None => Result(s, Failed(EACCES), Nothing)
      case Some(sub) =>
        if s.queues[i].subs[sub].flags.wronly then Result(s, Failed(EACCES), Nothing)
        else
          assert AnySub(s.queues[i].subs);
          ReceiveTurn(s, pid, i, sub, len)
  }

  datatype MqAttr = MqAttr(maxmsg: int, msgsize: int)

  function AttrError(attr: Option<MqAttr>): Option<Errno> {
    match attr
    case None => None
    case Some(a) =>
      if a.maxmsg == 0 then Some(EINVAL)
      else if a.maxmsg > 8 then Some(ENOSPC)
      else if a.msgsize == 0 then Some(EINVAL)
      else if a.msgsize > 128 then Some(ENOSPC)
      else None
  }

  /** The queue `mqueue_open` makes in a free slot; the subscriptions there are not touched. */
  function Created(q: Queue, id: int, hash: nat, attr: Option<MqAttr>): Queue {
    var a := if attr.Some? then attr.value else MqAttr(8, 128);
    q.(id := id, open := true, hash := hash, maxmsg := a.maxmsg, msgsize := a.msgsize, curmsg := 0, head := -1, tail := -1)
  }

  const NO_FLAGS := Flags(false, false, false, false, false)

  /** Last part of `mqueue_open`: a slot for the subscription. */
  function Subscribed(s: Mq, pid: int, i: QueueIx, flags: Flags): Result
    requires |s.queues| == 32 && Arrays(s.queues[i])
  {
    var q := s.queues[i];
    match FindSub(q.subs, 0, 0)
    case None => Result(s, Failed(EACCES), Nothing)
    case Some(k) => Result(WithQueue(s, i, q.(subs := q.subs[k := Sub(pid, flags)])), Opened(q.id), Nothing)
  }

  /** A new queue in slot `i`. */
  function Create(s: Mq, i: QueueIx, hash: nat, attr: Option<MqAttr>): (t: Mq)
    requires QueuesOk(s)
    ensures |t.queues| == 32 && Arrays(t.queues[i])
  {
    assert QueueOk(s.queues[i]);
    WithQueue(s, i, Created(s.queues[i], s.count + 1, hash, attr)).(count := s.count + 1)
  }

  /** `mqueue_open`, on the hash of the name. */
  function Open(s: Mq, pid: int, hash: nat, creat: bool, excl: bool, flags: Flags, attr: Option<MqAttr>): Result
    requires QueuesOk(s)
  {
    match FindHash(s.queues, hash, 0)
    case Some(i) =>
      if creat && excl then Result(s, Failed(EEXIST), Nothing)
      else if !s.queues[i].open then Result(s, Failed(ENOENT), Nothing)
      else Subscribed(s, pid, i, flags)
    case None =>
      if !creat then Result(s, Failed(ENOENT), Nothing)
      else match FindId(s.queues, 0, 0)
        case None => Result(s, Failed(ENFILE), Nothing)
        case Some(i) =>
          if AttrError(attr).Some? then Result(s, Failed(AttrError(attr).value), Nothing)
          else Subscribed(Create(s, i, hash, attr), pid, i, flags)
  }

  /** `_destroy` */
  function Destroyed(q: Queue): Queue {
    if AnySub(q.subs) then q.(open := false) else q.(open := false, id := 0, hash := 0)
  }

  /** `_unsubscribe` */
  function Unsubscribed(q: Queue, pid: int): Queue
    requires |q.subs| == 8
  {
    match FindSub(q.subs, pid, 0)
    case None => q
    case Some(k) => q.(subs := q.subs[k := Sub(-1, NO_FLAGS)])
  }

  /** What `mqueue_close` does to its queue: the last close of an unlinked queue frees it. */
  function Closed(q: Queue, pid: int): Queue
    requires |q.subs| == 8
  {
    var u := Unsubscribed(q, pid);
    if !u.open && !AnySub(u.subs) then Destroyed(u) else u
  }

  /** `mqueue_close` */
  function Close(s: Mq, pid: int, id: int): Result
    requires QueuesOk(s)
  {
    match FindId(s.queues, id, 0)
    case None => Result(s, Failed(EBADF), Nothing)
    case Some(i) => Result(WithQueue(s, i, Closed(s.queues[i], pid)), Done, Nothing)
  }

  /** `mqueue_unlink` */
  function Unlink(s: Mq, hash: nat): Result
    requires QueuesOk(s)
  {
    match FindHash(s.queues, hash, 0)
    case None => Result(s, Failed(ENOENT), Nothing)
    case Some(i) => Result(WithQueue(s, i, Destroyed(s.queues[i])), Done, Nothing)
  }

  // ---------------------------------------------------------------- steps

  datatype Event =
    | DoOpen(pid: int, hash: nat, creat: bool, excl: bool, flags: Flags, attr: Option<MqAttr>)
    | DoClose(pid: int, id: int)
    | DoUnlink(pid: int, hash: nat)
    | DoSend(pid: int, id: int, msg: Text)
    | DoReceive(pid: int, id: int, len: nat)
    | Resume(pid: int)
    | Wake(pid: int)

  /** What every state keeps about calls that sleep: the subscription they hold on to is their own. */
  predicate PendingOk(s: Mq)
    requires |s.queues| == 32
  {
    forall pid :: pid in s.pending ==>
      var op := s.pending[pid];
      && pid > 0 && |s.queues[op.q].subs| == 8 && s.queues[op.q].subs[op.sub].pid == pid
      && (op.Sending? ==> |op.msg| <= s.queues[op.q].msgsize)
  }

  /** IDs and names of live queues are unique. */
  predicate NamesOk(s: Mq)
    requires |s.queues| == 32
  {
    && (forall i: QueueIx :: 0 <= s.queues[i].id <= s.count)
    && (forall i: QueueIx, j: QueueIx :: i != j && s.queues[i].id != 0 && s.queues[j].id != 0 ==>
          s.queues[i].id != s.queues[j].id && s.queues[i].hash != s.queues[j].hash)
  }

  predicate Inv(s: Mq) { QueuesOk(s) && PendingOk(s) && NamesOk(s) }

  /** A task that sleeps or is blocked makes no calls; callers have positive process IDs, ask for a
      positive number of messages, and leave the two kernel flags alone. */
  predicate Enabled(s: Mq, e: Event) {
    match e
    case DoOpen(pid, _, _, _, flags, attr) =>
      && pid > 0 && pid !in s.pending && !flags.blckRecv && !flags.blckSend
      && (attr.Some? ==> attr.value.maxmsg >= 0)
    case DoClose(pid, _) => pid > 0 && pid !in s.pending
    case DoUnlink(pid, _) => pid > 0 && pid !in s.pending
    case DoSend(pid, _, _) => pid > 0 && pid !in s.pending
    case DoReceive(pid, _, _) => pid > 0 && pid !in s.pending
    case Resume(pid) => pid in s.pending && pid !in s.blocked
    case Wake(_) => true
  }

  /** The next turn of a call whose caller woke up. */
  function Resumed(s: Mq, pid: int): Result
    requires Inv(s) && pid in s.pending
  {
    var op := s.pending[pid];
    var s' := s.(pending := s.pending - {pid});
    assert AnySub(s.queues[op.q].subs) && QueueOk(s.queues[op.q]);
    if op.Sending? then SendTurn(s', pid, op.q, op.sub, op.msg) else ReceiveTurn(s', pid, op.q, op.sub, op.len)
  }

  function Step(s: Mq, e: Event): Result
    requires Inv(s) && Enabled(s, e)
  {
    match e
    case DoOpen(pid, hash, creat, excl, flags, attr) => Open(s, pid, hash, creat, excl, flags, attr)
    case DoClose(pid, id) => Close(s, pid, id)
    case DoUnlink(_, hash) => Unlink(s, hash)
    case DoSend(pid, id, msg) => Send(s, pid, id, msg)
    case DoReceive(pid, id, len) => Receive(s, pid, id, len)
    case Resume(pid) => Resumed(s, pid)
    case Wake(pid) => Result(s.(blocked := s.blocked - {pid}), Done, Nothing)
  }
}
