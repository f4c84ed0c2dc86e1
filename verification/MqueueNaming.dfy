/** What `mqueue_open`, `mqueue_close` and `mqueue_unlink` answer and change, said without the search functions:
    which queue a name stands for, what a new queue is like, and until when a queue lives. */
module MqueueNaming {
  import opened Options
  import opened Mqueue
  import opened MqueueRuns
  import opened MqueueOutcomes

  // ---------------------------------------------------------------- what changes

  /** Only queue `i` is different. */
  ghost predicate OnlySlot(s: Mq, t: Mq, i: QueueIx)
    requires |s.queues| == 32
  {
    |t.queues| == 32 && SameTasks(s, t) && forall j: QueueIx :: j != i ==> t.queues[j] == s.queues[j]
  }

  /** The task gets the first subscription that was never used; if there is none, EACCES. */
  ghost predicate Joins(t: Mq, pid: int, i: QueueIx, flags: Flags, r: Result)
    requires |t.queues| == 32 && |t.queues[i].subs| == 8
  {
    var q := t.queues[i];
    && (NoSub(q, 0) ==> r.out == Failed(EACCES) && r.s == t)
    && (forall k: SubIx :: IsSub(q, 0, k) ==>
          && r.out == Opened(q.id) && OnlySlot(t, r.s, i) && r.s.count == t.count
          && r.s.queues[i].(subs := q.subs) == q && |r.s.queues[i].subs| == 8
          && r.s.queues[i].subs[k] == Sub(pid, flags) && OthersSame(q, r.s.queues[i], k))
  }

  /** Slot `f` has become a new, empty queue with the next ID; its subscriptions are what they were. */
  ghost predicate Made(s: Mq, t: Mq, f: QueueIx, hash: nat, maxmsg: int, msgsize: int)
    requires |s.queues| == 32
  {
    && OnlySlot(s, t, f) && t.count == s.count + 1
    && var q := t.queues[f];
       && q.id == t.count && q.open && q.hash == hash && q.maxmsg == maxmsg && q.msgsize == msgsize
       && q.curmsg == 0 && q.subs == s.queues[f].subs && Arrays(q)
       && (maxmsg >= 1 ==> RingOk(q) && Fifo(q) == [])
  }

  lemma SubscribedJoins(t: Mq, pid: int, i: QueueIx, flags: Flags)
    requires |t.queues| == 32 && Arrays(t.queues[i])
    ensures Joins(t, pid, i, flags, Subscribed(t, pid, i, flags))
  {
    var q := t.queues[i];
    if NoSub(q, 0) { FindsNoSub(q, 0); }
    forall k: SubIx | IsSub(q, 0, k)
      ensures FindSub(q.subs, 0, 0) == Some(k)
    {
      FindsSub(q, 0, 0, k);
    }
  }

  // ---------------------------------------------------------------- open

  /** A name that stands for a queue: an exclusive open fails with EEXIST, any other with ENOENT once the queue is
      unlinked; otherwise the caller joins. */
  lemma OpenExisting(s: Mq, pid: int, hash: nat, creat: bool, excl: bool, flags: Flags, attr: Option<MqAttr>, i: QueueIx)
    requires Inv(s) && Named(s, hash, i)
    ensures |s.queues[i].subs| == 8
    ensures var r := Open(s, pid, hash, creat, excl, flags, attr);
            && (creat && excl ==> r.out == Failed(EEXIST) && r.s == s)
            && (!(creat && excl) && !s.queues[i].open ==> r.out == Failed(ENOENT) && r.s == s)
            && (!(creat && excl) && s.queues[i].open ==> Joins(s, pid, i, flags, r))
  {
    assert QueueOk(s.queues[i]);
    FindsName(s, hash, i);
    SubscribedJoins(s, pid, i, flags);
  }

  /** Attributes that a new queue can have. */
  predicate AttrOk(attr: Option<MqAttr>) {
    attr.Some? ==> attr.value.maxmsg != 0 && attr.value.maxmsg <= 8 && attr.value.msgsize != 0 && attr.value.msgsize <= 128
  }

  /** A name that stands for no queue, and an open that makes none: without O_CREAT, without a free slot, or with
      attributes that cannot be. */
  lemma OpenRefused(s: Mq, pid: int, hash: nat, creat: bool, excl: bool, flags: Flags, attr: Option<MqAttr>)
    requires Inv(s) && forall i: QueueIx :: !Named(s, hash, i)
    ensures var r := Open(s, pid, hash, creat, excl, flags, attr);
            var free := exists j: QueueIx :: s.queues[j].id == 0;
            && (!creat ==> r.out == Failed(ENOENT) && r.s == s)
            && (creat && !free ==> r.out == Failed(ENFILE) && r.s == s)
            && (creat && free && attr.Some? ==>
                  var a := attr.value;
                  && (a.maxmsg == 0 ==> r.out == Failed(EINVAL) && r.s == s)
                  && (a.maxmsg > 8 ==> r.out == Failed(ENOSPC) && r.s == s)
                  && (a.maxmsg != 0 && a.maxmsg <= 8 && a.msgsize == 0 ==> r.out == Failed(EINVAL) && r.s == s)
                  && (a.maxmsg != 0 && a.maxmsg <= 8 && a.msgsize > 128 ==> r.out == Failed(ENOSPC) && r.s == s))
  {
    FindsNoName(s, hash);
  }

  /** A name that stands for no queue, and an open that makes one: in the first free slot, open, empty, with the next
      ID and the limits asked for, or 8 messages of 128 bytes; the caller joins it. */
  lemma OpenMakes(s: Mq, pid: int, hash: nat, excl: bool, flags: Flags, attr: Option<MqAttr>, f: QueueIx) returns (t: Mq)
    requires Inv(s) && (forall i: QueueIx :: !Named(s, hash, i)) && IsQueue(s, 0, f) && AttrOk(attr)
    ensures Made(s, t, f, hash, if attr.Some? then attr.value.maxmsg else 8, if attr.Some? then attr.value.msgsize else 128)
    ensures |t.queues[f].subs| == 8 && Joins(t, pid, f, flags, Open(s, pid, hash, true, excl, flags, attr))
  {
    FindsNoName(s, hash);
    FindsQueue(s, 0, 0, f);
    assert QueueOk(s.queues[f]);
    t := Create(s, f, hash, attr);
    SubscribedJoins(t, pid, f, flags);
  }

  /** The ID that an open answers is that of a queue that is open, has the name, and has the caller among its
      subscribers, with the access it asked for. */
  lemma OpenedMeans(s: Mq, pid: int, hash: nat, creat: bool, excl: bool, flags: Flags, attr: Option<MqAttr>)
    returns (i: QueueIx, k: SubIx)
    requires Inv(s) && pid > 0 && Open(s, pid, hash, creat, excl, flags, attr).out.Opened?
    ensures var r := Open(s, pid, hash, creat, excl, flags, attr);
            && |r.s.queues| == 32 && Named(r.s, hash, i) && r.s.queues[i].id == r.out.id && r.s.queues[i].open
            && |r.s.queues[i].subs| == 8 && r.s.queues[i].subs[k] == Sub(pid, flags)
  {
    var t := s;
    if j: QueueIx :| Named(s, hash, j) {
      i := j;
      OpenExisting(s, pid, hash, creat, excl, flags, attr, i);
    } else {
      OpenRefused(s, pid, hash, creat, excl, flags, attr);
      FirstQueue(s, 0, 0);
      i :| IsQueue(s, 0, i);
      t := OpenMakes(s, pid, hash, excl, flags, attr, i);
      assert t.count == s.count + 1 > 0 by { assert 0 <= s.queues[i].id <= s.count; }
    }
    FirstSub(t.queues[i], 0, 0);
    k :| IsSub(t.queues[i], 0, k);
  }

  // ---------------------------------------------------------------- close

  lemma CloseNothing(s: Mq, pid: int, id: int)
    requires Inv(s) && NoQueue(s, id)
    ensures Close(s, pid, id).out == Failed(EBADF) && Close(s, pid, id).s == s
  {
    FindsNoQueue(s, id);
  }

  /** A close gives up the first subscription of the caller, for good: it is marked with process ID -1.  The queue
      goes if it is unlinked and nobody else is subscribed. */
  ghost predicate CloseIs(s: Mq, pid: int, i: QueueIx, k: SubIx, r: Result)
    requires |s.queues| == 32 && |s.queues[i].subs| == 8
  {
    var q := s.queues[i];
    && r.out == Done && OnlySlot(s, r.s, i) && r.s.count == s.count
    && var q' := r.s.queues[i];
       && q'.(subs := q.subs, id := q.id, hash := q.hash) == q && |q'.subs| == 8
       && (NoSub(q, pid) ==> q'.subs == q.subs)
       && (IsSub(q, pid, k) ==>
             q'.subs[k] == Sub(-1, Flags(false, false, false, false, false)) && OthersSame(q, q', k))
       && (!q.open && !Subscribes(q') ==> q'.id == 0 && q'.hash == 0)
       && (q.open || Subscribes(q') ==> q'.id == q.id && q'.hash == q.hash)
  }

  lemma ClosedIs(q: Queue, pid: int, k: SubIx)
    requires |q.subs| == 8 && pid > 0
    ensures var q' := Closed(q, pid);
            && q'.(subs := q.subs, id := q.id, hash := q.hash) == q && |q'.subs| == 8
            && (NoSub(q, pid) ==> q'.subs == q.subs)
            && (IsSub(q, pid, k) ==>
                  q'.subs[k] == Sub(-1, Flags(false, false, false, false, false)) && OthersSame(q, q', k))
            && (!q.open && !Subscribes(q') ==> q'.id == 0 && q'.hash == 0)
            && (q.open || Subscribes(q') ==> q'.id == q.id && q'.hash == q.hash)
  {
    if NoSub(q, pid) { FindsNoSub(q, pid); }
    if IsSub(q, pid, k) { FindsSub(q, pid, 0, k); }
  }

  lemma CloseOutcome(s: Mq, pid: int, id: int, i: QueueIx, k: SubIx)
    requires Inv(s) && pid > 0 && IsQueue(s, id, i)
    ensures |s.queues[i].subs| == 8 && CloseIs(s, pid, i, k, Close(s, pid, id))
  {
    assert QueueOk(s.queues[i]);
    FindsQueue(s, id, 0, i);
    ClosedIs(s.queues[i], pid, k);
  }

  // ---------------------------------------------------------------- unlink

  lemma UnlinkNothing(s: Mq, hash: nat)
    requires Inv(s) && forall i: QueueIx :: !Named(s, hash, i)
    ensures Unlink(s, hash).out == Failed(ENOENT) && Unlink(s, hash).s == s
  {
    FindsNoName(s, hash);
  }

  /** An unlinked queue is not open any more; it keeps its ID, its name, its messages and its subscribers while there
      are any, and is free otherwise. */
  ghost predicate UnlinkIs(s: Mq, i: QueueIx, r: Result)
    requires |s.queues| == 32
  {
    var q := s.queues[i];
    && r.out == Done && OnlySlot(s, r.s, i) && r.s.count == s.count
    && var q' := r.s.queues[i];
       && !q'.open && q'.(open := q.open, id := q.id, hash := q.hash) == q
       && (Subscribes(q) ==> q'.id == q.id && q'.hash == q.hash)
       && (!Subscribes(q) ==> q'.id == 0 && q'.hash == 0)
  }

  lemma UnlinkOutcome(s: Mq, hash: nat, i: QueueIx)
    requires Inv(s) && Named(s, hash, i)
    ensures UnlinkIs(s, i, Unlink(s, hash))
  {
    FindsName(s, hash, i);
  }

  /** After an unlink nobody opens the queue: without O_CREAT every open fails with ENOENT, and while somebody is
      subscribed no open makes a new queue of that name. */
  lemma UnlinkedName(s: Mq, hash: nat, i: QueueIx, pid: int, creat: bool, excl: bool, flags: Flags, attr: Option<MqAttr>)
    requires Inv(s) && Named(s, hash, i)
    ensures var t := Unlink(s, hash).s;
            && Inv(t)
            && (!creat ==> Open(t, pid, hash, creat, excl, flags, attr).out == Failed(ENOENT))
            && (Subscribes(s.queues[i]) ==>
                  Open(t, pid, hash, creat, excl, flags, attr).out == Failed(if creat && excl then EEXIST else ENOENT))
  {
    UnlinkOutcome(s, hash, i);
    UnlinkInv(s, hash);
    var t := Unlink(s, hash).s;
    if Subscribes(s.queues[i]) {
      assert Named(t, hash, i);
      OpenExisting(t, pid, hash, creat, excl, flags, attr, i);
    } else if !creat {
      forall j: QueueIx
        ensures !Named(t, hash, j)
      {
        if j != i { assert t.queues[j] == s.queues[j]; }
      }
      OpenRefused(t, pid, hash, creat, excl, flags, attr);
    }
  }
}
