/** The code of mqueue.c: queues are updated in place, tables are searched by loops.  Each method is proved
    against the state machine.  A call that blocks returns after `task_block`; `Continue` is what happens
    when its task runs again. */
module MqueueCode {
  import opened Options
  import opened Mqueue
  import opened MqueueHistory

  const EMSGSIZE_CODE := 8

  class QueueTable {
    const openQueues: array<Queue>
    var count: int
    /** Tasks in state TASK_BLOCKED, and the calls that sleep on their own kernel stacks. */
    var blocked: set<int>
    var pending: map<int, Op>

    /** The tables at boot. */
    constructor ()
      ensures fresh(openQueues) && Valid() && State() == BOOT
    {
      openQueues := new Queue[32](_ => NO_QUEUE);
      count, blocked, pending := 0, {}, map[];
      new;
      assert forall i: QueueIx :: QueueOk(openQueues[..][i]);
    }

    ghost function State(): Mq
      reads this, openQueues
    {
      Mq(openQueues[..], count, blocked, pending)
    }

    ghost predicate Valid()
      reads this, openQueues
    {
      openQueues.Length == 32 && QueuesOk(State())
    }

    // ---------------------------------------------------------------- searching

    method Find(id: int) returns (r: Option<QueueIx>)
      requires openQueues.Length == 32
      ensures r == FindId(openQueues[..], id, 0)
    {
      var i := 0;
      while i < MQ_MAX_OPEN
        invariant 0 <= i <= 32 && FindId(openQueues[..], id, 0) == FindId(openQueues[..], id, i)
      {
        if openQueues[i].id == id { return Some(i); }
        i := i + 1;
      }
      return None;
    }

    method FindByHash(hash: nat) returns (r: Option<QueueIx>)
      requires openQueues.Length == 32
      ensures r == FindHash(openQueues[..], hash, 0)
    {
      var i := 0;
      while i < MQ_MAX_OPEN
        invariant 0 <= i <= 32 && FindHash(openQueues[..], hash, 0) == FindHash(openQueues[..], hash, i)
      {
        if openQueues[i].id != 0 && openQueues[i].hash == hash { return Some(i); }
        i := i + 1;
      }
      return None;
    }

    /** `_find_subscriber`: process ID 0 stands for any subscriber. */
    method FindSubscriber(q: QueueIx, pid: int) returns (r: Option<SubIx>)
      requires openQueues.Length == 32 && |openQueues[q].subs| == 8
      ensures pid != 0 ==> r == FindSub(openQueues[q].subs, pid, 0)
      ensures pid == 0 ==> (r.Some? <==> AnySub(openQueues[q].subs))
    {
      var subs := openQueues[q].subs;
      var i := 0;
      while i < MQ_MAX_SUBSCRIBERS
        invariant 0 <= i <= 8
        invariant pid != 0 ==> FindSub(subs, pid, 0) == FindSub(subs, pid, i)
        invariant pid == 0 ==> forall k :: 0 <= k < i ==> subs[k].pid <= 0
      {
        if (pid != 0 && subs[i].pid == pid) || (pid == 0 && subs[i].pid > 0) { return Some(i); }
        i := i + 1;
      }
      return None;
    }

    // ---------------------------------------------------------------- subscriptions

    /** The body of the loop of `_unblock_subscribers`. */
    method UnblockOne(q: QueueIx, i: SubIx)
      requires openQueues.Length == 32 && |openQueues[q].subs| == 8
      modifies this`blocked, openQueues
      ensures openQueues[..] == old(openQueues[..])[q := Cleared(old(openQueues[q]), i)]
      ensures blocked == old(blocked) - (if old(openQueues[q]).subs[i].flags.blckRecv then {old(openQueues[q]).subs[i].pid} else {})
    {
      var sub := openQueues[q].subs[i];
      if sub.flags.blckRecv {
        openQueues[q] := openQueues[q].(subs := openQueues[q].subs[i := sub.(flags := sub.flags.(blckRecv := false))]);
        blocked := blocked - {sub.pid};
      }
    }

    method UnblockSubscribers(q: QueueIx)
      requires openQueues.Length == 32 && Arrays(openQueues[q])
      modifies this`blocked, openQueues
      ensures openQueues[..] == old(openQueues[..])[q := old(openQueues[q]).(subs := Unflagged(old(openQueues[q].subs)))]
      ensures blocked == old(blocked) - Flagged(old(openQueues[q].subs))
    {
      ghost var before := openQueues[q];
      var i := 0;
      ClearedNone(before);
      while i < MQ_MAX_SUBSCRIBERS
        invariant 0 <= i <= 8
        invariant openQueues[..] == old(openQueues[..])[q := ClearedTo(before, i)]
        invariant blocked == old(blocked) - Flagged(before.subs[..i])
      {
        assert openQueues[q] == openQueues[..][q] == ClearedTo(before, i);
        UnblockOne(q, i);
        ClearedNext(before, i);
        FlaggedNext(before.subs, i);
        i := i + 1;
      }
      ClearedAll(before);
      assert before.subs[..8] == before.subs;
    }

    method Subscribe(q: QueueIx, pid: int, flags: Flags) returns (ok: bool)
      requires openQueues.Length == 32 && Arrays(openQueues[q])
      modifies openQueues
      ensures var k := FindSub(old(openQueues[q].subs), 0, 0);
              && ok == k.Some?
              && openQueues[..] == if k.None? then old(openQueues[..])
                                   else old(openQueues[..])[q := old(openQueues[q]).(subs := old(openQueues[q].subs)[k.value := Sub(pid, flags)])]
    {
      var subs := openQueues[q].subs;
      var i := 0;
      while i < MQ_MAX_SUBSCRIBERS
        invariant 0 <= i <= 8 && openQueues[..] == old(openQueues[..])
        invariant FindSub(subs, 0, 0) == FindSub(subs, 0, i)
      {
        if subs[i].pid == 0 {
          openQueues[q] := openQueues[q].(subs := subs[i := Sub(pid, flags)]);
          return true;
        }
        i := i + 1;
      }
      return false;
    }

    method Unsubscribe(q: QueueIx, pid: int) returns (ok: bool)
      requires openQueues.Length == 32 && Arrays(openQueues[q]) && pid > 0
      modifies openQueues
      ensures openQueues[..] == old(openQueues[..])[q := Unsubscribed(old(openQueues[q]), pid)]
      ensures ok == FindSub(old(openQueues[q].subs), pid, 0).Some?
    {
      var k := FindSubscriber(q, pid);
      if k.None? { return false; }
      openQueues[q] := openQueues[q].(subs := openQueues[q].subs[k.value := Sub(-1, NO_FLAGS)]);
      return true;
    }

    // ---------------------------------------------------------------- messages

    method EnqueueMessage(q: QueueIx, msg: Text) returns (ok: bool)
      requires openQueues.Length == 32 && Arrays(openQueues[q]) && |msg| <= 128
      requires -1 <= openQueues[q].tail < openQueues[q].maxmsg <= 8
      modifies this`blocked, openQueues
      ensures var w := TailWrapped(old(openQueues[q]));
              && ok == (w.curmsg != w.maxmsg)
              && openQueues[..] == old(openQueues[..])[q := if ok then Enqueued(w, msg) else w]
              && blocked == if ok && w.curmsg == 0 then old(blocked) - Flagged(w.subs) else old(blocked)
    {
      if openQueues[q].tail == openQueues[q].maxmsg - 1 {
        openQueues[q] := openQueues[q].(tail := -1);
      }
      if openQueues[q].curmsg == openQueues[q].maxmsg { return false; }
      openQueues[q] := openQueues[q].(tail := openQueues[q].tail + 1);
      var slots, tail := openQueues[q].slots, openQueues[q].tail;
      openQueues[q] := openQueues[q].(slots := slots[tail := Slot(|msg|, msg + slots[tail].bytes[|msg|..])]);
      if openQueues[q].curmsg == 0 {
        UnblockSubscribers(q);
      }
      openQueues[q] := openQueues[q].(curmsg := openQueues[q].curmsg + 1);
      return true;
    }

    /** `_dequeue` returns the number of bytes it copied into the caller's buffer, or -EMSGSIZE. */
    method DequeueMessage(q: QueueIx, len: nat) returns (n: int, text: Text)
      requires openQueues.Length == 32 && RingOk(openQueues[q])
      modifies openQueues
      ensures var o := old(openQueues[q]); var w := HeadWrapped(o);
              if o.curmsg == 0 then n == 0 && text == [] && openQueues[..] == old(openQueues[..])
              else if w.slots[w.head + 1].size > len then
                n < 0 && text == [] && openQueues[..] == old(openQueues[..])[q := w]
              else
                && n == w.slots[w.head + 1].size == |text|
                && text == w.slots[w.head + 1].bytes[..n]
                && openQueues[..] == old(openQueues[..])[q := Dequeued(w)]
    {
      if openQueues[q].curmsg == 0 { return 0, []; }
      if openQueues[q].head == openQueues[q].maxmsg - 1 {
        openQueues[q] := openQueues[q].(head := -1);
      }
      var message := openQueues[q].slots[openQueues[q].head + 1];
      if message.size > len { return -EMSGSIZE_CODE, []; }
      openQueues[q] := openQueues[q].(head := openQueues[q].head + 1);
      openQueues[q] := openQueues[q].(curmsg := openQueues[q].curmsg - 1);
      return message.size, message.bytes[..message.size];
    }

    method Destroy(q: QueueIx)
      requires openQueues.Length == 32 && Arrays(openQueues[q])
      modifies openQueues
      ensures openQueues[..] == old(openQueues[..])[q := Destroyed(old(openQueues[q]))]
    {
      openQueues[q] := openQueues[q].(open := false);
      var any := FindSubscriber(q, 0);
      if any.Some? { return; }
      openQueues[q] := openQueues[q].(id := 0, hash := 0);
    }

    // ---------------------------------------------------------------- the calls

    /** The part of `mqueue_open` that makes a new queue. */
    method MakeQueue(q: QueueIx, hash: nat, attr: Option<MqAttr>) returns (err: Option<Errno>)
      requires Valid()
      modifies this`count, openQueues
      ensures err == AttrError(attr)
      ensures State() == if err.Some? then old(State()) else Create(old(State()), q, hash, attr)
    {
      assert QueueOk(openQueues[q]);
      if attr.Some? {
        if attr.value.maxmsg == 0 { return Some(EINVAL); }
        if attr.value.maxmsg > MQ_MAX_MSG { return Some(ENOSPC); }
        if attr.value.msgsize == 0 { return Some(EINVAL); }
        if attr.value.msgsize > MQ_MAX_MSG_SIZE { return Some(ENOSPC); }
        openQueues[q] := openQueues[q].(maxmsg := attr.value.maxmsg, msgsize := attr.value.msgsize);
      } else {
        openQueues[q] := openQueues[q].(maxmsg := MQ_MAX_MSG, msgsize := MQ_MAX_MSG_SIZE);
      }
      count := count + 1;
      openQueues[q] := openQueues[q].(id := count, open := true, hash := hash, head := -1, tail := -1, curmsg := 0);
      return None;
    }

    /** The end of `mqueue_open`. */
    method SubscribeTo(q: QueueIx, pid: int, flags: Flags) returns (out: Outcome)
      requires openQueues.Length == 32 && Arrays(openQueues[q])
      modifies openQueues
      ensures var r := Subscribed(old(State()), pid, q, flags);
              State() == r.s && out == r.out
    {
      var ok := Subscribe(q, pid, flags);
      if !ok { return Failed(EACCES); }
      return Opened(openQueues[q].id);
    }

    method Open(pid: int, hash: nat, creat: bool, excl: bool, flags: Flags, attr: Option<MqAttr>) returns (out: Outcome)
      requires Valid()
      modifies this`count, openQueues
      ensures var r := Mqueue.Open(old(State()), pid, hash, creat, excl, flags, attr);
              State() == r.s && out == r.out
    {
      var q := FindByHash(hash);
      if creat {
        if excl && q.Some? { return Failed(EEXIST); }
        if q.None? {
          q := Find(0);
          if q.None? { return Failed(ENFILE); }
          var err := MakeQueue(q.value, hash, attr);
          if err.Some? { return Failed(err.value); }
        }
      }
      if q.None? || !openQueues[q.value].open { return Failed(ENOENT); }
      assert QueueOk(old(State()).queues[q.value]);
      out := SubscribeTo(q.value, pid, flags);
    }

    method Close(pid: int, id: int) returns (out: Outcome)
      requires Valid() && pid > 0
      modifies openQueues
      ensures var r := Mqueue.Close(old(State()), pid, id);
              State() == r.s && out == r.out
    {
      var q := Find(id);
      if q.None? { return Failed(EBADF); }
      assert QueueOk(openQueues[q.value]);
      var _ := Unsubscribe(q.value, pid);
      if !openQueues[q.value].open {
        var any := FindSubscriber(q.value, 0);
        if any.None? { Destroy(q.value); }
      }
      return Done;
    }

    method Unlink(hash: nat) returns (out: Outcome)
      requires Valid()
      modifies openQueues
      ensures var r := Mqueue.Unlink(old(State()), hash);
              State() == r.s && out == r.out
    {
      var q := FindByHash(hash);
      if q.None? { return Failed(ENOENT); }
      assert QueueOk(openQueues[q.value]);
      Destroy(q.value);
      return Done;
    }

    /** The loop of `mqueue_send`, up to the return or to `task_block`. */
    method SendLoop(pid: int, q: QueueIx, sub: SubIx, msg: Text) returns (out: Outcome)
      requires openQueues.Length == 32 && Arrays(openQueues[q]) && |msg| <= 128
      requires -1 <= openQueues[q].tail < openQueues[q].maxmsg <= 8
      modifies this`blocked, this`pending, openQueues
      ensures var r := SendTurn(old(State()), pid, q, sub, msg);
              State() == r.s && out == r.out
    {
      var ok := EnqueueMessage(q, msg);
      if ok { return Done; }
      var flags := openQueues[q].subs[sub].flags;
      if flags.nonblock { return Failed(EAGAIN); }
      openQueues[q] := openQueues[q].(subs := openQueues[q].subs[sub := openQueues[q].subs[sub].(flags := flags.(blckSend := true))]);
      blocked, pending := blocked + {pid}, pending[pid := Sending(q, sub, msg)];
      return Asleep;
    }

    method Send(pid: int, id: int, msg: Text) returns (out: Outcome)
      requires Valid() && pid > 0
      modifies this`blocked, this`pending, openQueues
      ensures var r := Mqueue.Send(old(State()), pid, id, msg);
              State() == r.s && out == r.out
    {
      var q := Find(id);
      if q.None? { return Failed(EBADF); }
      if |msg| > openQueues[q.value].msgsize { return Failed(EMSGSIZE); }
      assert QueueOk(openQueues[q.value]);
      var sub := FindSubscriber(q.value, pid);
      if sub.None? || openQueues[q.value].subs[sub.value].flags.rdonly { return Failed(EACCES); }
      assert AnySub(openQueues[q.value].subs);
      out := SendLoop(pid, q.value, sub.value, msg);
    }

    /** The loop of `mqueue_receive`, up to the return or to `task_block`. */
    method ReceiveLoop(pid: int, q: QueueIx, sub: SubIx, len: nat) returns (out: Outcome)
      requires openQueues.Length == 32 && RingOk(openQueues[q])
      modifies this`blocked, this`pending, openQueues
      ensures var r := ReceiveTurn(old(State()), pid, q, sub, len);
              State() == r.s && out == r.out
    {
      var n, text := DequeueMessage(q, len);
      if n > 0 { return Got(text); }
      var flags := openQueues[q].subs[sub].flags;
      if flags.nonblock { return Failed(EAGAIN); }
      openQueues[q] := openQueues[q].(subs := openQueues[q].subs[sub := openQueues[q].subs[sub].(flags := flags.(blckRecv := true))]);
      blocked, pending := blocked + {pid}, pending[pid := Receiving(q, sub, len)];
      return Asleep;
    }

    method Receive(pid: int, id: int, len: nat) returns (out: Outcome)
      requires Valid() && pid > 0
      modifies this`blocked, this`pending, openQueues
      ensures var r := Mqueue.Receive(old(State()), pid, id, len);
              State() == r.s && out == r.out
    {
      var q := Find(id);
      if q.None? { return Failed(EBADF); }
      assert QueueOk(openQueues[q.value]);
      var sub := FindSubscriber(q.value, pid);
      if sub.None? || openQueues[q.value].subs[sub.value].flags.wronly { return Failed(EACCES); }
      assert AnySub(openQueues[q.value].subs);
      out := ReceiveLoop(pid, q.value, sub.value, len);
    }

    /** A task that slept in a call runs again. */
    method Continue(pid: int) returns (out: Outcome)
      requires Valid() && Inv(State()) && pid in pending
      modifies this`blocked, this`pending, openQueues
      ensures var r := Resumed(old(State()), pid);
              State() == r.s && out == r.out
    {
      var op := pending[pid];
      pending := pending - {pid};
      assert AnySub(openQueues[op.q].subs) && QueueOk(openQueues[op.q]);
      if op.Sending? {
        out := SendLoop(pid, op.q, op.sub, op.msg);
      } else {
        out := ReceiveLoop(pid, op.q, op.sub, op.len);
      }
    }
  }

  lemma FlaggedNext(subs: seq<Sub>, i: nat)
    requires i < |subs|
    ensures Flagged(subs[..i + 1]) == Flagged(subs[..i]) + (if subs[i].flags.blckRecv then {subs[i].pid} else {})
  {
    forall p
      ensures p in Flagged(subs[..i + 1]) <==> p in Flagged(subs[..i]) || (subs[i].flags.blckRecv && p == subs[i].pid)
    {
      if p in Flagged(subs[..i]) {
        var k :| 0 <= k < i && subs[..i][k].flags.blckRecv && subs[..i][k].pid == p;
        assert subs[..i + 1][k] == subs[k];
      }
      if subs[i].flags.blckRecv { assert subs[..i + 1][i].flags.blckRecv; }
    }
  }

  function Cleared(q: Queue, i: SubIx): Queue
    requires |q.subs| == 8
  {
    var sub := q.subs[i];
    if sub.flags.blckRecv then q.(subs := q.subs[i := sub.(flags := sub.flags.(blckRecv := false))]) else q
  }

  /** The first `i` subscribers are no longer marked. */
  function ClearedTo(q: Queue, i: nat): (r: Queue)
    requires |q.subs| == 8 && i <= 8
    ensures |r.subs| == 8
  {
    q.(subs := Unflagged(q.subs[..i]) + q.subs[i..])
  }

  lemma ClearedNone(q: Queue)
    requires |q.subs| == 8
    ensures ClearedTo(q, 0) == q
  {
    assert Unflagged(q.subs[..0]) + q.subs[0..] == q.subs;
  }

  lemma ClearedAll(q: Queue)
    requires |q.subs| == 8
    ensures ClearedTo(q, 8) == q.(subs := Unflagged(q.subs))
  {
    assert q.subs[..8] == q.subs;
    assert Unflagged(q.subs) + q.subs[8..] == Unflagged(q.subs);
  }

  lemma ClearedNext(q: Queue, i: SubIx)
    requires |q.subs| == 8
    ensures Cleared(ClearedTo(q, i), i) == ClearedTo(q, i + 1) && ClearedTo(q, i).subs[i] == q.subs[i]
  {
    var a, b := Cleared(ClearedTo(q, i), i).subs, ClearedTo(q, i + 1).subs;
    forall k | 0 <= k < 8
      ensures a[k] == b[k]
    {
      ClearedAt(q, i, k);
      ClearedAt(q, i + 1, k);
    }
  }

  lemma ClearedAt(q: Queue, i: nat, k: nat)
    requires |q.subs| == 8 && i <= 8 && k < 8
    ensures ClearedTo(q, i).subs[k] ==
            if k < i then q.subs[k].(flags := q.subs[k].flags.(blckRecv := false)) else q.subs[k]
  {
    if k < i { assert q.subs[..i][k] == q.subs[k]; } else { assert q.subs[i..][k - i] == q.subs[k]; }
  }
}
