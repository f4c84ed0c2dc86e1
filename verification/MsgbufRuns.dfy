/** Senders that sleep in `msgbuf_send` (msgbuf.c): the buffer they wait for may be closed, and its slot given to another
    name, before they push. */
module MsgbufRuns {
  import opened Options
  import opened MsgbufQueue
  import opened Msgbuf

  /** What a sleeping sender goes on with: the slot of its own buffer, and the slot its pointer leads to. */
  datatype Wait = Wait(sendId: int, recvId: int)

  /** The slots, how many buffers each of them has held so far, and the senders asleep in front of a full queue. */
  datatype Sys = Sys(c: seq<Buffer>, births: seq<nat>, asleep: map<int, Wait>)

  ghost predicate Sound(s: Sys) {
    && BuffersOk(s.c) && Distinct(s.c) && |s.births| == |s.c|
    && forall pid :: pid in s.asleep ==> 0 <= s.asleep[pid].recvId < |s.c|
  }

  /** Calls that return or go to sleep; `Retry` is a sender that wakes up, `Woken` a receiver that does. */
  datatype Event =
    | Create(pid: int, name: string, id: int)
    | Close(pid: int, id: int)
    | Connect(id: int, recvId: int, place: nat, addr: nat)
    | Disconnect(pid: int, id: int, recvId: int)
    | Send(pid: int, sendId: int, recvId: int, noblock: bool, res: Sent)
    | Retry(pid: int)
    | Receive(pid: int, id: int, got: Received)
    | Woken(id: int)

  /** Slot `id` of `n` has held one buffer more. */
  ghost predicate BornAt(births: seq<nat>, births': seq<nat>, n: nat, id: int) {
    && |births'| == n && |births| <= n
    && forall k :: 0 <= k < n ==> births'[k] == (if k < |births| then births[k] else 0) + if k == id then 1 else 0
  }

  /** The push of a sender that wakes up: nothing but the queue is looked at. */
  function Pushes(c: seq<Buffer>, w: Wait): Option<seq<Buffer>>
    requires 0 <= w.recvId < |c| && Shaped(c[w.recvId].queue)
  {
    var q := c[w.recvId].queue;
    if Count(q) == QUEUE_SIZE then None else Some(WithQueue(c, w.recvId, Pushed(q, w.sendId)))
  }

  ghost predicate Step(s: Sys, e: Event, s': Sys)
    requires Sound(s)
  {
    && BuffersOk(s'.c) && Distinct(s'.c)
    && (!e.Create? ==> s'.births == s.births && |s'.c| == |s.c|)
    && (!e.Send? && !e.Retry? ==> s'.asleep == s.asleep)
    && match e
       case Create(pid, name, id) =>
         Made(s.c, s'.c, id, name, pid) && LowestFree(s.c, id) && BornAt(s.births, s'.births, |s'.c|, id)
       case Close(pid, id) =>
         CloseEnd(s.c, id, pid) == CloseResult.Closed && s'.c == ClosedAt(s.c, id)
       case Connect(id, recvId, place, addr) =>
         && LiveIn(s.c, id) && LiveIn(s.c, recvId) && place < |s.c[id].conns| && s.c[id].conns[place].id == -1
         && s'.c == s.c[id := s.c[id].(conns := s.c[id].conns[place := Conn(recvId, addr)])]
       case Disconnect(pid, id, recvId) =>
         && OwnedIn(s.c, id, pid) && LiveIn(s.c, recvId) && |s.c[id].conns| > 0
         && s'.c == s.c[id := s.c[id].(conns := s.c[id].conns[ConnPlace(s.c[id].conns, recvId, 0) := Conn(-1, 0)])]
       case Send(pid, sendId, recvId, noblock, res) =>
         && pid !in s.asleep && SendResult(s.c, s'.c, sendId, recvId, pid, noblock, res)
         && s'.asleep == if res.Full? then s.asleep[pid := Wait(sendId, recvId)] else s.asleep
       case Retry(pid) =>
         && pid in s.asleep
         && (assert BufferOkAt(s.c, s.asleep[pid].recvId);
             match Pushes(s.c, s.asleep[pid])
             case None => s' == s
             case Some(c) => s'.c == c && s'.asleep == s.asleep - {pid})
       case Receive(pid, id, got) =>
         RecvResult(s.c, s'.c, id, pid, got)
       case Woken(id) =>
         0 <= id < |s.c| && s'.c == WithQueue(s.c, id, s'.c[id].queue)
  }

  ghost predicate Run(s: Sys, es: seq<Event>, s': Sys)
    requires Sound(s)
    decreases |es|
  {
    if es == [] then s' == s
    else exists mid :: Sound(mid) && Step(s, es[0], mid) && Run(mid, es[1..], s')
  }

  // ---------------------------------------------------------------- what becomes of a slot

  /** One event and one slot: only its close ends a buffer, and a new buffer there is counted. */
  lemma StepSlot(s: Sys, e: Event, s': Sys, r: nat)
    requires Sound(s) && Step(s, e, s') && r < |s.c|
    ensures r < |s'.c| && |s'.births| == |s'.c| && s'.births[r] >= s.births[r]
    ensures if e.Close? && e.id == r then !LiveIn(s'.c, r)
            else LiveIn(s.c, r) ==>
              LiveIn(s'.c, r) && s'.births[r] == s.births[r] && s'.c[r].name == s.c[r].name && s'.c[r].owner == s.c[r].owner
    ensures !LiveIn(s.c, r) && LiveIn(s'.c, r) ==> s'.births[r] > s.births[r]
  {
    match e
    case Send(pid, sendId, recvId, noblock, res) =>
    case Receive(pid, id, got) =>
    case Retry(pid) =>
      assert BufferOkAt(s.c, s.asleep[pid].recvId);
    case _ =>
  }

  /** The waits of others stay. */
  lemma StepAsleep(s: Sys, e: Event, s': Sys, pid: int)
    requires Sound(s) && Step(s, e, s') && pid in s.asleep && e != Retry(pid)
    ensures pid in s'.asleep && s'.asleep[pid] == s.asleep[pid]
  {
  }

  predicate NoRetry(es: seq<Event>, pid: int) { forall k :: 0 <= k < |es| ==> es[k] != Retry(pid) }

  predicate ClosedIn(es: seq<Event>, r: int) { exists k :: 0 <= k < |es| && es[k].Close? && es[k].id == r }

  lemma ClosedSplit(es: seq<Event>, r: int)
    requires es != []
    ensures ClosedIn(es, r) <==> (es[0].Close? && es[0].id == r) || ClosedIn(es[1..], r)
  {
    if ClosedIn(es, r) {
      var k :| 0 <= k < |es| && es[k].Close? && es[k].id == r;
      if k > 0 { assert es[1..][k - 1] == es[k]; }
    }
    if ClosedIn(es[1..], r) {
      var k :| 0 <= k < |es[1..]| && es[1..][k].Close? && es[1..][k].id == r;
      assert es[k + 1] == es[1..][k];
    }
  }

  /** The slot still holds the buffer it held at the start. */
  ghost predicate SameBuffer(s: Sys, s': Sys, r: nat)
    requires r < |s.c| && r < |s.births|
  {
    && r < |s'.c| && r < |s'.births| && LiveIn(s'.c, r) && s'.births[r] == s.births[r]
  }

  /** A buffer that was closed does not come back. */
  lemma {:induction false} NeverBack(s: Sys, es: seq<Event>, s': Sys, r: nat, b: nat)
    requires Sound(s) && Run(s, es, s') && r < |s.c|
    requires s.births[r] >= b && (!LiveIn(s.c, r) || s.births[r] > b)
    ensures r < |s'.c| && r < |s'.births| && (!LiveIn(s'.c, r) || s'.births[r] > b)
    decreases |es|
  {
    if es != [] {
      var mid :| Sound(mid) && Step(s, es[0], mid) && Run(mid, es[1..], s');
      StepSlot(s, es[0], mid, r);
      NeverBack(mid, es[1..], s', r, b);
    }
  }

  /** While a sender sleeps its wait stays, and the slot it points to holds the same buffer, with the same name and owner,
      exactly if nobody has closed that buffer. */
  lemma {:induction false} SlotWhileAsleep(s: Sys, es: seq<Event>, s': Sys, pid: int)
    requires Sound(s) && Run(s, es, s') && pid in s.asleep && NoRetry(es, pid) && LiveIn(s.c, s.asleep[pid].recvId)
    ensures pid in s'.asleep && s'.asleep[pid] == s.asleep[pid]
    ensures var r := s.asleep[pid].recvId;
            && (SameBuffer(s, s', r) <==> !ClosedIn(es, r))
            && (SameBuffer(s, s', r) ==> s'.c[r].name == s.c[r].name && s'.c[r].owner == s.c[r].owner)
    decreases |es|
  {
    if es != [] {
      var mid :| Sound(mid) && Step(s, es[0], mid) && Run(mid, es[1..], s');
      var r := s.asleep[pid].recvId;
      assert es[0] != Retry(pid);
      forall k | 0 <= k < |es[1..]|
        ensures es[1..][k] != Retry(pid)
      {
        assert es[1..][k] == es[k + 1];
      }
      StepSlot(s, es[0], mid, r);
      StepAsleep(s, es[0], mid, pid);
      ClosedSplit(es, r);
      if es[0].Close? && es[0].id == r {
        StillAsleep(mid, es[1..], s', pid);
        NeverBack(mid, es[1..], s', r, s.births[r]);
      } else {
        SlotWhileAsleep(mid, es[1..], s', pid);
      }
    }
  }

  lemma {:induction false} StillAsleep(s: Sys, es: seq<Event>, s': Sys, pid: int)
    requires Sound(s) && Run(s, es, s') && pid in s.asleep && NoRetry(es, pid)
    ensures pid in s'.asleep && s'.asleep[pid] == s.asleep[pid]
    decreases |es|
  {
    if es != [] {
      var mid :| Sound(mid) && Step(s, es[0], mid) && Run(mid, es[1..], s');
      assert es[0] != Retry(pid);
      forall k | 0 <= k < |es[1..]|
        ensures es[1..][k] != Retry(pid)
      {
        assert es[1..][k] == es[k + 1];
      }
      StepAsleep(s, es[0], mid, pid);
      StillAsleep(mid, es[1..], s', pid);
    }
  }

  /** So the push that ends the wait goes to the buffer the sender called, exactly if nobody closed that meanwhile. */
  lemma PushReaches(s: Sys, es: seq<Event>, mid: Sys, pid: int, s': Sys)
    requires Sound(s) && Run(s, es, mid) && pid in s.asleep && NoRetry(es, pid) && LiveIn(s.c, s.asleep[pid].recvId)
    requires Sound(mid) && Step(mid, Retry(pid), s') && pid !in s'.asleep && s.asleep[pid].sendId != -1
    ensures var w := s.asleep[pid];
            && w.recvId < |mid.c| == |s'.c|
            && s'.c[w.recvId] == mid.c[w.recvId].(queue := s'.c[w.recvId].queue)
            && (SameBuffer(s, s', w.recvId) <==> !ClosedIn(es, w.recvId))
            && (LiveIn(s'.c, w.recvId) ==>
                  LiveIn(mid.c, w.recvId) && Waiting(s'.c, w.recvId) == Waiting(mid.c, w.recvId) + [w.sendId])
  {
    var w := s.asleep[pid];
    SlotWhileAsleep(s, es, mid, pid);
    assert BufferOkAt(mid.c, w.recvId);
    StepSlot(mid, Retry(pid), s', w.recvId);
    if LiveIn(mid.c, w.recvId) {
      PushFifo(mid.c[w.recvId].queue, w.sendId);
    }
  }

  // ---------------------------------------------------------------- the push that goes astray

  /** Buffer `r` of `owner` with a full queue, and buffer `sendId` of `pid` connected to it; no slot before `r` is free. */
  ghost predicate FullReceiver(s: Sys, r: nat, owner: int, sendId: nat, pid: int) {
    && Sound(s) && OwnedIn(s.c, r, owner) && OwnedIn(s.c, sendId, pid) && r != sendId && pid !in s.asleep
    && |Waiting(s.c, r)| == QUEUE_SIZE && s.c[r].addr == 0 && LowestFree(s.c, r)
    && ConnFrom(s.c[sendId].conns, r, 0).Some?
  }

  /** A buffer as `msgbuf_create` leaves it. */
  function NewBuffer(was: Buffer, name: string, pid: int): Buffer {
    Buffer(name, 0, pid, 0, Queue([-1, -1, -1, -1, -1, -1, -1, -1], if was.queue.pos < 8 then was.queue.pos else 0), NO_CONNS)
  }

  lemma NewBufferOk(was: Buffer, name: string, pid: int)
    ensures var b := NewBuffer(was, name, pid); BufferOk(b) && Fifo(b.queue) == []
  {
    var q := NewBuffer(was, name, pid).queue;
    assert forall k :: 0 <= k < 8 ==> At(q, k) == -1;
    CountIs(q, 0);
  }

  /** Slot `r` closed, and then given to another name. */
  lemma Recycled(s: Sys, r: nat, owner: int, name: string, other: int) returns (s1: Sys, s2: Sys)
    requires Sound(s) && OwnedIn(s.c, r, owner) && s.c[r].addr == 0 && LowestFree(s.c, r)
    requires name != "" && forall k :: 0 <= k < |s.c| ==> s.c[k].name != name
    ensures Sound(s1) && Step(s, Close(owner, r), s1) && Sound(s2) && Step(s1, Create(other, name, r), s2)
    ensures s2.asleep == s.asleep && |s2.c| == |s.c| && (forall k :: 0 <= k < |s.c| && k != r ==> s2.c[k] == s.c[k])
    ensures s2.c[r].name == name && s2.c[r].owner == other && Waiting(s2.c, r) == []
  {
    var c1 := ClosedAt(s.c, r);
    var c2 := c1[r := NewBuffer(c1[r], name, other)];
    NewBufferOk(c1[r], name, other);
    forall k | 0 <= k < |c1|
      ensures BufferOkAt(c1, k) && BufferOkAt(c2, k)
    {
      assert BufferOkAt(s.c, k);
    }
    forall j: nat, k: nat
      ensures Apart(c1, j, k) && Apart(c2, j, k)
    {
      assert Apart(s.c, j, k);
    }
    s1 := Sys(c1, s.births, s.asleep);
    s2 := Sys(c2, s.births[r := s.births[r] + 1], s.asleep);
    assert Made(c1, c2, r, name, other);
  }

  /** The buffer in slot `r` is another one, only this sender waits for it, and the connection is the old one. */
  ghost predicate Astray(c: seq<Buffer>, c': seq<Buffer>, r: nat, sendId: nat, name: string, other: int) {
    && BuffersOk(c') && LiveIn(c', r) && c'[r].name == name && c'[r].owner == other && Waiting(c', r) == [sendId]
    && sendId in Connected(c', r) && sendId < |c| && sendId < |c'| && c'[sendId] == c[sendId]
  }

  lemma FallsAsleep(s: Sys, r: nat, owner: int, sendId: nat, pid: int) returns (s1: Sys)
    requires FullReceiver(s, r, owner, sendId, pid)
    ensures s1 == s.(asleep := s.asleep[pid := Wait(sendId, r)]) && Sound(s1)
    ensures Step(s, Send(pid, sendId, r, false, Full), s1)
  {
    s1 := s.(asleep := s.asleep[pid := Wait(sendId, r)]);
  }

  /** The retry of the sender, once slot `r` holds a new buffer. */
  lemma WakesUp(s: Sys, s3: Sys, r: nat, sendId: nat, pid: int, name: string, other: int) returns (s4: Sys)
    requires Sound(s3) && pid in s3.asleep && s3.asleep[pid] == Wait(sendId, r) && r != sendId && OwnedIn(s3.c, r, other)
    requires s3.c[r].name == name && Waiting(s3.c, r) == [] && LiveIn(s.c, sendId) && sendId < |s3.c|
    requires s3.c[sendId] == s.c[sendId] && ConnFrom(s.c[sendId].conns, r, 0).Some?
    ensures Step(s3, Retry(pid), s4) && pid !in s4.asleep && Astray(s.c, s4.c, r, sendId, name, other)
  {
    PushNew(s3, r, sendId);
    assert BufferOkAt(s3.c, r);
    s4 := Sys(WithQueue(s3.c, r, Pushed(s3.c[r].queue, sendId)), s3.births, s3.asleep - {pid});
    assert sendId in Connected(s3.c, r);
  }

  /** The run: the sender goes to sleep in front of the full queue, the receiver is closed, another task gets the slot for a
      buffer of its own, and the sender wakes up and pushes there.  The new owner's receive accepts the message, because the
      connection of the sender carries the number of the slot and was not touched, and is given an address that was mapped
      for the old owner. */
  lemma PushGoesAstray(s: Sys, r: nat, owner: int, sendId: nat, pid: int, name: string, other: int)
    returns (s1: Sys, es: seq<Event>, s3: Sys, s4: Sys)
    requires FullReceiver(s, r, owner, sendId, pid)
    requires name != "" && forall k :: 0 <= k < |s.c| ==> s.c[k].name != name
    ensures Step(s, Send(pid, sendId, r, false, Full), s1) && Sound(s1) && pid in s1.asleep
    ensures NoRetry(es, pid) && ClosedIn(es, r) && Run(s1, es, s3)
    ensures Sound(s3) && Step(s3, Retry(pid), s4) && pid !in s4.asleep && Astray(s.c, s4.c, r, sendId, name, other)
  {
    s1 := FallsAsleep(s, r, owner, sendId, pid);
    var s2;
    s2, s3 := Recycled(s1, r, owner, name, other);
    es := [Close(owner, r), Create(other, name, r)];
    assert es[0].Close? && es[0].id == r;
    TwoSteps(s1, es[0], s2, es[1], s3);
    s4 := WakesUp(s, s3, r, sendId, pid, name, other);
  }

  lemma TwoSteps(s: Sys, e1: Event, s1: Sys, e2: Event, s2: Sys)
    requires Sound(s) && Step(s, e1, s1) && Sound(s1) && Step(s1, e2, s2) && Sound(s2)
    ensures Run(s, [e1, e2], s2)
  {
    assert [e1, e2][1..] == [e2] && [e2][1..] == [];
    assert Run(s2, [e2][1..], s2);
    assert Run(s1, [e1, e2][1..], s2);
  }

  lemma PushNew(s: Sys, r: nat, sendId: nat)
    requires Sound(s) && LiveIn(s.c, r) && Waiting(s.c, r) == []
    ensures assert BufferOkAt(s.c, r); Count(s.c[r].queue) == 0
    ensures assert BufferOkAt(s.c, r);
            var c' := WithQueue(s.c, r, Pushed(s.c[r].queue, sendId));
            && BuffersOk(c') && Distinct(c') && LiveIn(c', r) && Waiting(c', r) == [sendId]
            && Connected(c', r) == Connected(s.c, r)
  {
    assert BufferOkAt(s.c, r);
    PushFifo(s.c[r].queue, sendId);
    WithQueueKeeps(s.c, r, Pushed(s.c[r].queue, sendId));
  }
}
