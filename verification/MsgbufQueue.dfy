/** The receive queue of a message buffer (msgbuf.c): eight slots, -1 for an empty one, and the slot of the
    oldest entry.  There is no counter: the entries are the slots up to the first empty one. */
module MsgbufQueue {

  const QUEUE_SIZE: nat := 8

  datatype Queue = Queue(slots: seq<int>, pos: nat)

  predicate Shaped(q: Queue) { |q.slots| == 8 && q.pos < 8 }

  /** The index `i` places after `pos`, going round. */
  function Place(pos: nat, i: nat): (j: nat)
    requires pos < 8 && i <= 8
    ensures j < 8 && j == (pos + i) % 8
  {
    if pos + i >= 8 then pos + i - 8 else pos + i
  }

  /** The entry in the slot `i` places after the oldest. */
  function At(q: Queue, i: nat): int
    requires Shaped(q) && i < 8
  {
    q.slots[Place(q.pos, i)]
  }

  /** Number of entries from the `i`th on, counted up to the first empty slot. */
  function CountFrom(q: Queue, i: nat): (n: nat)
    requires Shaped(q) && i <= 8
    ensures i <= n <= 8 && (n < 8 ==> At(q, n) == -1) && forall k :: i <= k < n ==> At(q, k) != -1
    decreases 8 - i
  {
    if i == 8 || At(q, i) == -1 then i else CountFrom(q, i + 1)
  }

  function Count(q: Queue): (n: nat)
    requires Shaped(q)
    ensures n <= 8 && (n < 8 ==> At(q, n) == -1) && forall k :: 0 <= k < n ==> At(q, k) != -1
  {
    CountFrom(q, 0)
  }

  /** Occupied slots are contiguous: behind the first empty slot all are empty. */
  predicate Contiguous(q: Queue) {
    Shaped(q) && forall k :: Count(q) <= k < 8 ==> At(q, k) == -1
  }

  function FifoFrom(q: Queue, i: nat): (r: seq<int>)
    requires Shaped(q) && i <= Count(q)
    ensures |r| == Count(q) - i && forall k :: 0 <= k < |r| ==> r[k] == At(q, i + k)
    decreases Count(q) - i
  {
    if i == Count(q) then [] else [At(q, i)] + FifoFrom(q, i + 1)
  }

  /** The senders that wait, oldest first. */
  function Fifo(q: Queue): (r: seq<int>)
    requires Shaped(q)
    ensures |r| == Count(q) && -1 !in r && forall k :: 0 <= k < |r| ==> r[k] == At(q, k)
  {
    FifoFrom(q, 0)
  }

  lemma CountIs(q: Queue, n: nat)
    requires Shaped(q) && n <= 8 && (n < 8 ==> At(q, n) == -1) && forall k :: 0 <= k < n ==> At(q, k) != -1
    ensures Count(q) == n
  {}

  /** `_msgbuf_queue_push`: the first empty slot from the oldest entry on. */
  function Pushed(q: Queue, id: int): Queue
    requires Shaped(q) && Count(q) < 8
  {
    q.(slots := q.slots[Place(q.pos, Count(q)) := id])
  }

  /** A push to a queue that is not full joins at the end. */
  lemma PushFifo(q: Queue, id: int)
    requires Contiguous(q) && Count(q) < 8 && id != -1
    ensures Contiguous(Pushed(q, id)) && Fifo(Pushed(q, id)) == Fifo(q) + [id]
  {
    var r := Pushed(q, id);
    var n := Count(q);
    forall k | 0 <= k < 8
      ensures At(r, k) == if k == n then id else At(q, k)
    {
    }
    CountIs(r, n + 1);
  }

  /** `_msgbuf_queue_pop` on a queue that is not empty. */
  function Popped(q: Queue): Queue
    requires Shaped(q)
  {
    Queue(q.slots[q.pos := -1], Place(q.pos, 1))
  }

  /** A pop takes the oldest entry. */
  lemma PopFifo(q: Queue)
    requires Contiguous(q) && Count(q) > 0
    ensures Contiguous(Popped(q)) && Fifo(q) == [q.slots[q.pos]] + Fifo(Popped(q))
  {
    var r := Popped(q);
    var n := Count(q);
    assert At(q, 0) == q.slots[q.pos];
    forall k | 0 <= k < 8
      ensures At(r, k) == if k == 7 then -1 else At(q, k + 1)
    {
      if k < 7 { assert Place(r.pos, k) == Place(q.pos, k + 1); }
    }
    CountIs(r, n - 1);
  }

  // ---------------------------------------------------------------- runs of pushes and pops

  datatype Op = Push(id: int) | Pop

  function Apply(q: Queue, op: Op): Queue
    requires Contiguous(q)
  {
    match op
    case Push(id) => if Count(q) < 8 then Pushed(q, id) else q
    case Pop => if Count(q) > 0 then Popped(q) else q
  }

  lemma ApplyContiguous(q: Queue, op: Op)
    requires Contiguous(q) && op != Push(-1)
    ensures Contiguous(Apply(q, op))
  {
    if op.Push? {
      if Count(q) < 8 { PushFifo(q, op.id); }
    } else {
      if Count(q) > 0 { PopFifo(q); }
    }
  }

  predicate Senders(ops: seq<Op>) { forall i :: 0 <= i < |ops| ==> ops[i] != Push(-1) }

  function Last(q: Queue, ops: seq<Op>): (r: Queue)
    requires Contiguous(q) && Senders(ops)
    ensures Contiguous(r)
    decreases |ops|
  {
    if ops == [] then q
    else
      ApplyContiguous(q, ops[0]);
      Last(Apply(q, ops[0]), ops[1..])
  }

  function Went(q: Queue, op: Op): seq<int>
    requires Shaped(q)
  {
    if op.Push? && Count(q) < 8 then [op.id] else []
  }

  function Came(q: Queue, op: Op): seq<int>
    requires Shaped(q)
  {
    if op.Pop? && Count(q) > 0 then [q.slots[q.pos]] else []
  }

  /** The IDs that went in. */
  function In(q: Queue, ops: seq<Op>): seq<int>
    requires Contiguous(q) && Senders(ops)
    decreases |ops|
  {
    if ops == [] then []
    else
      ApplyContiguous(q, ops[0]);
      Went(q, ops[0]) + In(Apply(q, ops[0]), ops[1..])
  }

  /** The IDs that came out. */
  function Out(q: Queue, ops: seq<Op>): seq<int>
    requires Contiguous(q) && Senders(ops)
    decreases |ops|
  {
    if ops == [] then []
    else
      ApplyContiguous(q, ops[0]);
      Came(q, ops[0]) + Out(Apply(q, ops[0]), ops[1..])
  }

  lemma StepFifo(q: Queue, op: Op)
    requires Contiguous(q) && op != Push(-1)
    ensures Contiguous(Apply(q, op)) && Fifo(q) + Went(q, op) == Came(q, op) + Fifo(Apply(q, op))
  {
    if op.Push? {
      if Count(q) < 8 { PushFifo(q, op.id); }
    } else {
      if Count(q) > 0 { PopFifo(q); }
    }
  }

  lemma Glue(f: seq<int>, w: seq<int>, c: seq<int>, g: seq<int>, a: seq<int>, b: seq<int>, l: seq<int>)
    requires f + w == c + g && g + a == b + l
    ensures f + (w + a) == (c + b) + l
  {
    assert f + (w + a) == (f + w) + a == (c + g) + a == c + (g + a);
  }

  /** Over every run of pushes and pops the occupied slots stay contiguous, and the queue is a FIFO of capacity 8. */
  lemma {:induction false} RunFifo(q: Queue, ops: seq<Op>)
    requires Contiguous(q) && Senders(ops)
    ensures Contiguous(Last(q, ops)) && |Fifo(Last(q, ops))| <= 8
    ensures Fifo(q) + In(q, ops) == Out(q, ops) + Fifo(Last(q, ops))
    decreases |ops|
  {
    if ops != [] {
      StepFifo(q, ops[0]);
      var r := Apply(q, ops[0]);
      RunFifo(r, ops[1..]);
      Glue(Fifo(q), Went(q, ops[0]), Came(q, ops[0]), Fifo(r), In(r, ops[1..]), Out(r, ops[1..]), Fifo(Last(q, ops)));
    }
  }

  // ---------------------------------------------------------------- receiving

  /** The place of the oldest entry that is still good. */
  function FirstGood(f: seq<int>, good: set<int>): (i: nat)
    ensures i <= |f| && (i < |f| ==> f[i] in good) && forall k :: 0 <= k < i ==> f[k] !in good
  {
    if f == [] || f[0] in good then 0 else 1 + FirstGood(f[1..], good)
  }
}
