/** What each message queue call answers and changes, said without the search functions: when it fails and with
    which error number, when its caller falls asleep and which marks that leaves, which queue an open makes or
    joins, and what becomes of a queue that is closed or unlinked. */
module MqueueOutcomes {
  import opened Options
  import opened Mqueue
  import opened MqueueRuns

  // ---------------------------------------------------------------- which queue and which subscription are meant

  /** Slot `i` is the first with the ID; IDs other than 0 are unique, 0 stands for a free slot. */
  ghost predicate IsQueue(s: Mq, id: int, i: QueueIx)
    requires |s.queues| == 32
  {
    s.queues[i].id == id && forall j: QueueIx :: j < i ==> s.queues[j].id != id
  }

  ghost predicate NoQueue(s: Mq, id: int)
    requires |s.queues| == 32
  {
    forall j: QueueIx :: s.queues[j].id != id
  }

  /** Slot `k` is the first subscription of the task. */
  ghost predicate IsSub(q: Queue, pid: int, k: SubIx)
    requires |q.subs| == 8
  {
    q.subs[k].pid == pid && forall j: SubIx :: j < k ==> q.subs[j].pid != pid
  }

  ghost predicate NoSub(q: Queue, pid: int)
    requires |q.subs| == 8
  {
    forall j: SubIx :: q.subs[j].pid != pid
  }

  ghost predicate Subscribes(q: Queue) { exists j :: 0 <= j < |q.subs| && q.subs[j].pid > 0 }

  /** Live queue `i` has the name. */
  ghost predicate Named(s: Mq, hash: nat, i: QueueIx)
    requires |s.queues| == 32
  {
    s.queues[i].id != 0 && s.queues[i].hash == hash
  }

  lemma {:induction false} FindsQueue(s: Mq, id: int, from: nat, i: QueueIx)
    requires |s.queues| == 32 && from <= i && IsQueue(s, id, i)
    ensures FindId(s.queues, id, from) == Some(i)
    decreases 32 - from
  {
    if from < i { FindsQueue(s, id, from + 1, i); }
  }

  lemma {:induction false} FindsSub(q: Queue, pid: int, from: nat, k: SubIx)
    requires |q.subs| == 8 && from <= k && IsSub(q, pid, k)
    ensures FindSub(q.subs, pid, from) == Some(k)
    decreases 8 - from
  {
    if from < k { FindsSub(q, pid, from + 1, k); }
  }

  lemma FindsNoSub(q: Queue, pid: int)
    requires |q.subs| == 8 && NoSub(q, pid)
    ensures FindSub(q.subs, pid, 0).None?
  {}

  lemma FindsNoQueue(s: Mq, id: int)
    requires |s.queues| == 32 && NoQueue(s, id)
    ensures FindId(s.queues, id, 0).None?
  {}

  /** Names are unique. */
  lemma FindsName(s: Mq, hash: nat, i: QueueIx)
    requires Inv(s) && Named(s, hash, i)
    ensures FindHash(s.queues, hash, 0) == Some(i)
  {
    var r := FindHash(s.queues, hash, 0);
    assert r.Some? && Named(s, hash, r.value);
  }

  lemma FindsNoName(s: Mq, hash: nat)
    requires |s.queues| == 32 && forall i: QueueIx :: !Named(s, hash, i)
    ensures FindHash(s.queues, hash, 0).None?
  {
    var r := FindHash(s.queues, hash, 0);
    if r.Some? { assert Named(s, hash, r.value); }
  }

  // ---------------------------------------------------------------- what a turn leaves alone

  /** Queue `i` may have other messages and marks, everything else about the queues is the same. */
  ghost predicate OnlyQueue(s: Mq, t: Mq, i: QueueIx)
    requires |s.queues| == 32 && |s.queues[i].subs| == 8
  {
    && |t.queues| == 32 && t.count == s.count && (forall j: QueueIx :: j != i ==> t.queues[j] == s.queues[j])
    && Kept(s.queues[i], t.queues[i])
  }

  /** Nobody sleeps or wakes. */
  predicate SameTasks(s: Mq, t: Mq) { t.blocked == s.blocked && t.pending == s.pending }

  /** The same subscription, with these marks. */
  predicate Marked(a: Sub, b: Sub, recv: bool, send: bool) {
    && b.pid == a.pid && b.flags.rdonly == a.flags.rdonly && b.flags.wronly == a.flags.wronly
    && b.flags.nonblock == a.flags.nonblock && b.flags.blckRecv == recv && b.flags.blckSend == send
  }

  ghost predicate OthersSame(q: Queue, r: Queue, k: SubIx)
    requires |q.subs| == 8 && |r.subs| == 8
  {
    forall j: SubIx :: j != k ==> r.subs[j] == q.subs[j]
  }

  /** The task is among those that wait for a message. */
  ghost predicate WaitsForText(q: Queue, pid: int) {
    exists j :: 0 <= j < |q.subs| && q.subs[j].flags.blckRecv && q.subs[j].pid == pid
  }

  // ---------------------------------------------------------------- one turn of a send

  /** What a turn of the loop of `mqueue_send` comes to. */
  ghost predicate SendTurnIs(s: Mq, pid: int, i: QueueIx, k: SubIx, msg: Text, r: Result)
    requires |s.queues| == 32 && RingOk(s.queues[i])
  {
    var q := s.queues[i];
    && OnlyQueue(s, r.s, i)
    && var q' := r.s.queues[i];
       if q.curmsg < q.maxmsg then
         && r.out == Done && Fifo(q') == Fifo(q) + [msg] && r.s.pending == s.pending
         && (forall p :: p in r.s.blocked <==> p in s.blocked && !(q.curmsg == 0 && WaitsForText(q, p)))
         && (forall j: SubIx ::
               Marked(q.subs[j], q'.subs[j], q.subs[j].flags.blckRecv && q.curmsg > 0, q.subs[j].flags.blckSend))
       else if q.subs[k].flags.nonblock then
         r.out == Failed(EAGAIN) && Fifo(q') == Fifo(q) && q'.subs == q.subs && SameTasks(s, r.s)
       else
         && r.out == Asleep && Fifo(q') == Fifo(q)
         && r.s.pending == s.pending[pid := Sending(i, k, msg)] && r.s.blocked == s.blocked + {pid}
         && Marked(q.subs[k], q'.subs[k], q.subs[k].flags.blckRecv, true) && OthersSame(q, q', k)
  }

  lemma FlaggedIs(q: Queue, p: int)
    ensures p in Flagged(q.subs) <==> WaitsForText(q, p)
  {}

  lemma SendTurnOutcome(s: Mq, pid: int, i: QueueIx, k: SubIx, msg: Text)
    requires |s.queues| == 32 && RingOk(s.queues[i]) && |msg| <= 128
    ensures SendTurnIs(s, pid, i, k, msg, SendTurn(s, pid, i, k, msg))
  {
    var q := s.queues[i];
    TailWrappedFifo(q);
    EnqueuedKept(q, msg);
    if q.curmsg < q.maxmsg {
      EnqueueFifo(q, msg);
      forall p
        ensures p in Flagged(q.subs) <==> WaitsForText(q, p)
      {
        FlaggedIs(q, p);
      }
    } else {
      SleeperKept(TailWrapped(q), q, k, false);
    }
  }

  /** A mark on a subscription changes neither the ring nor the names. */
  lemma SleeperKept(w: Queue, q: Queue, k: SubIx, recv: bool)
    requires RingOk(w) && RingOk(q) && Kept(q, w)
    ensures var f := w.subs[k].flags;
            var m := w.(subs := w.subs[k := w.subs[k].(flags :=
                       if recv then f.(blckRecv := true) else f.(blckSend := true))]);
            Kept(q, m) && Fifo(m) == Fifo(w)
  {
    var f := w.subs[k].flags;
    var m := w.(subs := w.subs[k := w.subs[k].(flags := if recv then f.(blckRecv := true) else f.(blckSend := true))]);
    assert forall n: nat :: n < w.curmsg ==> MessageAt(m, n) == MessageAt(w, n);
  }

  // ---------------------------------------------------------------- one turn of a receive

  /** A message is there that the caller gets: the oldest, if it is not empty and fits the buffer. */
  ghost predicate Gets(q: Queue, len: nat)
    requires RingOk(q)
  {
    q.curmsg > 0 && 0 < |Fifo(q)[0]| <= len
  }

  /** What is left: without the oldest message if the caller gets it or if it is empty. */
  ghost function Remaining(q: Queue, len: nat): seq<Text>
    requires RingOk(q)
  {
    if q.curmsg > 0 && |Fifo(q)[0]| <= len && (Gets(q, len) || Fifo(q)[0] == []) then Fifo(q)[1..] else Fifo(q)
  }

  /** What a turn of the loop of `mqueue_receive` comes to. */
  ghost predicate ReceiveTurnIs(s: Mq, pid: int, i: QueueIx, k: SubIx, len: nat, r: Result)
    requires |s.queues| == 32 && RingOk(s.queues[i])
  {
    var q := s.queues[i];
    && OnlyQueue(s, r.s, i)
    && var q' := r.s.queues[i];
       && Fifo(q') == Remaining(q, len)
       && if Gets(q, len) then
            r.out == Got(Fifo(q)[0]) && q'.subs == q.subs && SameTasks(s, r.s)
          else if q.subs[k].flags.nonblock then
            r.out == Failed(EAGAIN) && q'.subs == q.subs && SameTasks(s, r.s)
          else
            && r.out == Asleep
            && r.s.pending == s.pending[pid := Receiving(i, k, len)] && r.s.blocked == s.blocked + {pid}
            && Marked(q.subs[k], q'.subs[k], true, q.subs[k].flags.blckSend) && OthersSame(q, q', k)
  }

  /** The end of a turn without a text. */
  lemma NoMessageOutcome(s: Mq, pid: int, i: QueueIx, k: SubIx, len: nat, w: Queue, effect: Effect)
    requires |s.queues| == 32 && RingOk(s.queues[i]) && RingOk(w) && Kept(s.queues[i], w) && w.subs == s.queues[i].subs
    requires !Gets(s.queues[i], len) && Fifo(w) == Remaining(s.queues[i], len)
    ensures ReceiveTurnIs(s, pid, i, k, len, NoMessage(WithQueue(s, i, w), pid, i, k, len, effect))
  {
    SleeperKept(w, s.queues[i], k, true);
  }

  lemma ReceiveTurnOutcome(s: Mq, pid: int, i: QueueIx, k: SubIx, len: nat)
    requires |s.queues| == 32 && RingOk(s.queues[i])
    ensures ReceiveTurnIs(s, pid, i, k, len, ReceiveTurn(s, pid, i, k, len))
  {
    var q := s.queues[i];
    DequeuedKept(q);
    HeadWrappedFifo(q);
    if q.curmsg == 0 {
      assert WithQueue(s, i, q) == s;
      NoMessageOutcome(s, pid, i, k, len, q, Nothing);
    } else {
      DequeueFifo(q);
      var w := HeadWrapped(q);
      var m := w.slots[w.head + 1];
      assert MessageAt(w, 0) == m.bytes[..m.size] == Fifo(q)[0];
      if m.size > len {
        NoMessageOutcome(s, pid, i, k, len, w, Nothing);
      } else if m.size == 0 {
        NoMessageOutcome(s, pid, i, k, len, Dequeued(w), Took(w.id, []));
      } else {
        assert Gets(q, len) && Kept(q, Dequeued(w)) && Fifo(Dequeued(w)) == Fifo(q)[1..];
      }
    }
  }

  // ---------------------------------------------------------------- send and receive

  /** `mqueue_send` on an ID that no queue has. */
  lemma SendToNobody(s: Mq, pid: int, id: int, msg: Text)
    requires Inv(s) && pid > 0 && NoQueue(s, id)
    ensures Send(s, pid, id, msg).out == Failed(EBADF) && Send(s, pid, id, msg).s == s
  {
    FindsNoQueue(s, id);
  }

  /** `mqueue_send`: too long, not subscribed, not for writing, or one turn of the loop, in this order. */
  lemma SendOutcome(s: Mq, pid: int, id: int, msg: Text, i: QueueIx, k: SubIx)
    requires Inv(s) && pid > 0 && IsQueue(s, id, i) && |s.queues[i].subs| == 8
    ensures var r, q := Send(s, pid, id, msg), s.queues[i];
            && (|msg| > q.msgsize ==> r.out == Failed(EMSGSIZE) && r.s == s)
            && (|msg| <= q.msgsize && NoSub(q, pid) ==> r.out == Failed(EACCES) && r.s == s)
            && (|msg| <= q.msgsize && IsSub(q, pid, k) && q.subs[k].flags.rdonly ==> r.out == Failed(EACCES) && r.s == s)
            && (|msg| <= q.msgsize && IsSub(q, pid, k) && !q.subs[k].flags.rdonly ==>
                  RingOk(q) && SendTurnIs(s, pid, i, k, msg, r))
  {
    var q := s.queues[i];
    assert QueueOk(q);
    FindsQueue(s, id, 0, i);
    if NoSub(q, pid) { FindsNoSub(q, pid); }
    if IsSub(q, pid, k) {
      FindsSub(q, pid, 0, k);
      SubscriberLive(s, i, k);
      if |msg| <= q.msgsize { SendTurnOutcome(s, pid, i, k, msg); }
    }
  }

  lemma ReceiveFromNobody(s: Mq, pid: int, id: int, len: nat)
    requires Inv(s) && pid > 0 && NoQueue(s, id)
    ensures Receive(s, pid, id, len).out == Failed(EBADF) && Receive(s, pid, id, len).s == s
  {
    FindsNoQueue(s, id);
  }

  /** `mqueue_receive`: not subscribed, not for reading, or one turn of the loop. */
  lemma ReceiveOutcome(s: Mq, pid: int, id: int, len: nat, i: QueueIx, k: SubIx)
    requires Inv(s) && pid > 0 && IsQueue(s, id, i) && |s.queues[i].subs| == 8
    ensures var r, q := Receive(s, pid, id, len), s.queues[i];
            && (NoSub(q, pid) ==> r.out == Failed(EACCES) && r.s == s)
            && (IsSub(q, pid, k) && q.subs[k].flags.wronly ==> r.out == Failed(EACCES) && r.s == s)
            && (IsSub(q, pid, k) && !q.subs[k].flags.wronly ==> RingOk(q) && ReceiveTurnIs(s, pid, i, k, len, r))
  {
    var q := s.queues[i];
    assert QueueOk(q);
    FindsQueue(s, id, 0, i);
    if NoSub(q, pid) { FindsNoSub(q, pid); }
    if IsSub(q, pid, k) {
      FindsSub(q, pid, 0, k);
      SubscriberLive(s, i, k);
      ReceiveTurnOutcome(s, pid, i, k, len);
    }
  }

  /** The state in which a caller that woke up goes on. */
  function Awake(s: Mq, pid: int): Mq { s.(pending := map p | p in s.pending && p != pid :: s.pending[p]) }

  /** A caller that wakes up makes one more turn with its old arguments, and is no longer asleep meanwhile. */
  lemma ResumeOutcome(s: Mq, pid: int)
    requires Inv(s) && pid in s.pending
    ensures var op, r := s.pending[pid], Resumed(s, pid);
            var awake := Awake(s, pid);
            && RingOk(s.queues[op.q])
            && (op.Sending? ==> SendTurnIs(awake, pid, op.q, op.sub, op.msg, r))
            && (op.Receiving? ==> ReceiveTurnIs(awake, pid, op.q, op.sub, op.len, r))
  {
    var op := s.pending[pid];
    PendingLive(s, pid);
    assert QueueOk(s.queues[op.q]);
    var awake := s.(pending := s.pending - {pid});
    assert awake == Awake(s, pid);
    if op.Sending? {
      SendTurnOutcome(awake, pid, op.q, op.sub, op.msg);
    } else {
      ReceiveTurnOutcome(awake, pid, op.q, op.sub, op.len);
    }
  }

  // ---------------------------------------------------------------- sleeping

  /** The call of event `e` gets as far as its loop, which does `op`. */
  ghost predicate Loops(s: Mq, e: Event, op: Op)
    requires QueuesOk(s)
  {
    assert QueueOk(s.queues[op.q]);
    var q := s.queues[op.q];
    match e
    case DoSend(pid, id, msg) =>
      && op.Sending? && op.msg == msg && IsQueue(s, id, op.q) && |msg| <= q.msgsize && IsSub(q, pid, op.sub)
      && !q.subs[op.sub].flags.rdonly
    case DoReceive(pid, id, len) =>
      && op.Receiving? && op.len == len && IsQueue(s, id, op.q) && IsSub(q, pid, op.sub)
      && !q.subs[op.sub].flags.wronly
    case Resume(pid) => pid in s.pending && s.pending[pid] == op
    case _ => false
  }

  /** There is room for the message, or a text for the caller. */
  ghost predicate Served(q: Queue, op: Op)
    requires RingOk(q)
  {
    match op
    case Sending(_, _, _) => q.curmsg < q.maxmsg
    case Receiving(_, _, len) => Gets(q, len)
  }

  lemma LoopOutcome(s: Mq, e: Event, op: Op)
    requires Inv(s) && Enabled(s, e) && Loops(s, e, op)
    ensures RingOk(s.queues[op.q])
    ensures var awake, r := Awake(s, e.pid), Step(s, e);
            && (op.Sending? ==> SendTurnIs(awake, e.pid, op.q, op.sub, op.msg, r))
            && (op.Receiving? ==> ReceiveTurnIs(awake, e.pid, op.q, op.sub, op.len, r))
  {
    assert QueueOk(s.queues[op.q]);
    if !e.Resume? {
      assert Awake(s, e.pid) == s;
    }
    match e
    case DoSend(pid, id, msg) => SendOutcome(s, pid, id, msg, op.q, op.sub);
    case DoReceive(pid, id, len) => ReceiveOutcome(s, pid, id, len, op.q, op.sub);
    case Resume(pid) => ResumeOutcome(s, pid);
    case _ =>
  }

  /** How the loop ends: a call that is not served fails with EAGAIN if its subscription has O_NONBLOCK, and falls
      asleep if not. */
  lemma LoopEnds(s: Mq, e: Event, op: Op)
    requires Inv(s) && Enabled(s, e) && Loops(s, e, op)
    ensures RingOk(s.queues[op.q])
    ensures var q, out := s.queues[op.q], Step(s, e).out;
            var nonblock := q.subs[op.sub].flags.nonblock;
            && (out == Failed(EAGAIN) <==> !Served(q, op) && nonblock)
            && (out == Asleep <==> !Served(q, op) && !nonblock)
            && (Served(q, op) ==> out == if op.Sending? then Done else Got(Fifo(q)[0]))
  {
    LoopOutcome(s, e, op);
  }

  lemma {:induction false} FirstQueue(s: Mq, id: int, from: nat)
    requires |s.queues| == 32 && from <= 32 && forall j: QueueIx :: j < from ==> s.queues[j].id != id
    ensures NoQueue(s, id) || exists i: QueueIx :: IsQueue(s, id, i)
    decreases 32 - from
  {
    if from < 32 {
      if s.queues[from].id == id { assert IsQueue(s, id, from); } else { FirstQueue(s, id, from + 1); }
    }
  }

  lemma {:induction false} FirstSub(q: Queue, pid: int, from: nat)
    requires |q.subs| == 8 && from <= 8 && forall j: SubIx :: j < from ==> q.subs[j].pid != pid
    ensures NoSub(q, pid) || exists k: SubIx :: IsSub(q, pid, k)
    decreases 8 - from
  {
    if from < 8 {
      if q.subs[from].pid == pid { assert IsSub(q, pid, from); } else { FirstSub(q, pid, from + 1); }
    }
  }

  /** Nobody new is blocked or asleep. */
  predicate NoNewSleeper(s: Mq, t: Mq) { t.blocked <= s.blocked && forall p :: p in t.pending ==> p in s.pending }

  /** A send or a receive that does not get as far as its loop fails and changes nothing. */
  lemma CallFails(s: Mq, e: Event)
    requires Inv(s) && Enabled(s, e) && (e.DoSend? || e.DoReceive?) && forall op :: !Loops(s, e, op)
    ensures Step(s, e).out.Failed? && Step(s, e).out.err != EAGAIN && Step(s, e).s == s
  {
    FirstQueue(s, e.id, 0);
    if NoQueue(s, e.id) {
      FindsNoQueue(s, e.id);
    } else {
      var i: QueueIx :| IsQueue(s, e.id, i);
      assert QueueOk(s.queues[i]);
      FirstSub(s.queues[i], e.pid, 0);
      if NoSub(s.queues[i], e.pid) {
        CallFailsAt(s, e, i, 0);
      } else {
        var k: SubIx :| IsSub(s.queues[i], e.pid, k);
        CallFailsAt(s, e, i, k);
      }
    }
  }

  lemma CallFailsAt(s: Mq, e: Event, i: QueueIx, k: SubIx)
    requires Inv(s) && Enabled(s, e) && (e.DoSend? || e.DoReceive?) && IsQueue(s, e.id, i) && |s.queues[i].subs| == 8
    requires NoSub(s.queues[i], e.pid) || IsSub(s.queues[i], e.pid, k)
    requires !Loops(s, e, if e.DoSend? then Sending(i, k, e.msg) else Receiving(i, k, e.len))
    ensures Step(s, e).out.Failed? && Step(s, e).out.err != EAGAIN && Step(s, e).s == s
  {
    if e.DoSend? {
      SendOutcome(s, e.pid, e.id, e.msg, i, k);
    } else {
      ReceiveOutcome(s, e.pid, e.id, e.len, i, k);
    }
  }

  /** The loop does `op` through a subscription with or without O_NONBLOCK, and cannot be served. */
  ghost predicate Unserved(s: Mq, e: Event, op: Op, nonblock: bool)
    requires QueuesOk(s)
  {
    && Loops(s, e, op) && RingOk(s.queues[op.q]) && !Served(s.queues[op.q], op)
    && s.queues[op.q].subs[op.sub].flags.nonblock == nonblock
  }

  /** The caller sleeps, and nobody else does who did not. */
  ghost predicate FallsAsleep(s: Mq, t: Mq, pid: int, op: Op) {
    && t.blocked == s.blocked + {pid} && pid in t.pending && t.pending[pid] == op
    && forall p :: p in t.pending && p != pid ==> p in s.pending && t.pending[p] == s.pending[p]
  }

  lemma SendSleeps(s: Mq, pid: int, i: QueueIx, k: SubIx, msg: Text, r: Result)
    requires |s.queues| == 32 && RingOk(s.queues[i]) && SendTurnIs(Awake(s, pid), pid, i, k, msg, r)
    ensures r.out == Asleep ==> FallsAsleep(s, r.s, pid, Sending(i, k, msg))
    ensures r.out != Asleep ==> NoNewSleeper(s, r.s)
  {
    if r.out != Asleep {
      assert r.s.pending == Awake(s, pid).pending;
      forall p | p in r.s.blocked
        ensures p in s.blocked
      {
        if s.queues[i].curmsg < s.queues[i].maxmsg {
          assert p in Awake(s, pid).blocked && !(s.queues[i].curmsg == 0 && WaitsForText(s.queues[i], p));
        }
      }
    }
  }

  lemma ReceiveSleeps(s: Mq, pid: int, i: QueueIx, k: SubIx, len: nat, r: Result)
    requires |s.queues| == 32 && RingOk(s.queues[i]) && ReceiveTurnIs(Awake(s, pid), pid, i, k, len, r)
    ensures r.out == Asleep ==> FallsAsleep(s, r.s, pid, Receiving(i, k, len))
    ensures r.out != Asleep ==> NoNewSleeper(s, r.s)
  {}

  lemma LoopSleeps(s: Mq, e: Event, op: Op)
    requires Inv(s) && Enabled(s, e) && Loops(s, e, op)
    ensures var r := Step(s, e);
            && (r.out != Asleep ==> NoNewSleeper(s, r.s))
            && (r.out == Asleep ==> Unserved(s, e, op, false) && FallsAsleep(s, r.s, e.pid, op))
            && (r.out == Failed(EAGAIN) ==> Unserved(s, e, op, true))
  {
    LoopOutcome(s, e, op);
    LoopEnds(s, e, op);
    match op
    case Sending(i, k, msg) => SendSleeps(s, e.pid, i, k, msg, Step(s, e));
    case Receiving(i, k, len) => ReceiveSleeps(s, e.pid, i, k, len, Step(s, e));
  }

  lemma SubscribedAwake(s: Mq, t: Mq, pid: int, i: QueueIx, flags: Flags)
    requires |t.queues| == 32 && Arrays(t.queues[i]) && SameTasks(s, t)
    ensures var r := Subscribed(t, pid, i, flags); r.out != Asleep && r.out != Failed(EAGAIN) && SameTasks(s, r.s)
  {}

  lemma OpenAwake(s: Mq, pid: int, hash: nat, creat: bool, excl: bool, flags: Flags, attr: Option<MqAttr>)
    requires Inv(s)
    ensures var r := Open(s, pid, hash, creat, excl, flags, attr);
            r.out != Asleep && r.out != Failed(EAGAIN) && SameTasks(s, r.s)
  {
    match FindHash(s.queues, hash, 0)
    case Some(i) =>
      assert QueueOk(s.queues[i]);
      SubscribedAwake(s, s, pid, i, flags);
    case None =>
      var f := FindId(s.queues, 0, 0);
      if creat && f.Some? && AttrError(attr).None? {
        SubscribedAwake(s, Create(s, f.value, hash, attr), pid, f.value, flags);
      }
  }

  lemma OthersAwake(s: Mq, e: Event)
    requires Inv(s) && Enabled(s, e) && (e.DoOpen? || e.DoClose? || e.DoUnlink? || e.Wake?)
    ensures var r := Step(s, e); r.out != Asleep && r.out != Failed(EAGAIN) && NoNewSleeper(s, r.s)
  {
    match e
    case DoOpen(pid, hash, creat, excl, flags, attr) => OpenAwake(s, pid, hash, creat, excl, flags, attr);
    case DoClose(pid, id) => assert SameTasks(s, Close(s, pid, id).s);
    case DoUnlink(_, hash) => assert SameTasks(s, Unlink(s, hash).s);
    case _ =>
  }

  /** A task falls asleep only in the loop of a send or a receive, through a subscription without O_NONBLOCK, and only
      when it is not served; EAGAIN comes only through a subscription with O_NONBLOCK. */
  lemma NonBlockingNeverSleeps(s: Mq, e: Event)
    requires Inv(s) && Enabled(s, e)
    ensures var r := Step(s, e);
            && (r.out != Asleep ==> NoNewSleeper(s, r.s))
            && (r.out == Asleep ==> exists op :: Unserved(s, e, op, false) && FallsAsleep(s, r.s, e.pid, op))
            && (r.out == Failed(EAGAIN) ==> exists op :: Unserved(s, e, op, true))
  {
    if e.DoSend? || e.DoReceive? || e.Resume? {
      if op :| Loops(s, e, op) {
        LoopSleeps(s, e, op);
      } else if e.Resume? {
        assert Loops(s, e, s.pending[e.pid]);
      } else {
        CallFails(s, e);
      }
    } else {
      OthersAwake(s, e);
    }
  }

  /** A wake-up lets the task go on, if it was blocked, and changes nothing else. */
  lemma WakeOutcome(s: Mq, pid: int)
    requires Inv(s)
    ensures var t := Step(s, Wake(pid)).s;
            && t.queues == s.queues && t.count == s.count && t.pending == s.pending
            && forall p :: p in t.blocked <==> p in s.blocked && p != pid
  {}
}
