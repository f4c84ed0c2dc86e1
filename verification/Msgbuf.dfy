/** The registry of message buffers (msgbuf.c): a linked list of nodes with 18 buffers each.  An ID counts the
    slots of all nodes from the first on; a slot with an empty name is free. */
module Msgbuf {
  import opened Options
  import opened MsgbufQueue

  const NODE_BUF_CNT: nat := 18  // (PAGESIZE - 8) / sizeof(struct msgbuf)
  const MAX_CONN: nat := 8

  /** `struct conn` and `struct msgbuf`; -1 is the ID of no receiver. */
  datatype Conn = Conn(id: int, addr: nat)
  datatype Buffer = Buffer(name: string, addr: nat, owner: int, size: nat, queue: Queue, conns: seq<Conn>)

  /** A slot of a page filled with zeros. */
  const BLANK := Buffer("", 0, 0, 0, Queue([0, 0, 0, 0, 0, 0, 0, 0], 0),
                        [Conn(0, 0), Conn(0, 0), Conn(0, 0), Conn(0, 0), Conn(0, 0), Conn(0, 0), Conn(0, 0), Conn(0, 0)])

  const NO_CONNS := [Conn(-1, 0), Conn(-1, 0), Conn(-1, 0), Conn(-1, 0), Conn(-1, 0), Conn(-1, 0), Conn(-1, 0), Conn(-1, 0)]

  datatype Err = ErrOk | ErrExs | ErrOom | ErrCoe | ErrCof | ErrNam | ErrSiz

  function Blanks(n: nat): (r: seq<Buffer>)
    ensures |r| == n && forall i :: 0 <= i < n ==> r[i] == BLANK
  {
    if n == 0 then [] else [BLANK] + Blanks(n - 1)
  }

  class Node {
    var next: Node?
    var buffers: seq<Buffer>

    /** A fresh page is taken to be filled with zeros, as the source does. */
    constructor ()
      ensures next == null && buffers == Blanks(NODE_BUF_CNT)
    {
      next, buffers := null, Blanks(NODE_BUF_CNT);
    }
  }

  // ---------------------------------------------------------------- slots as a sequence

  /** Slot `id` is in use. */
  predicate LiveIn(c: seq<Buffer>, id: int) { 0 <= id < |c| && c[id].name != "" }

  /** No slot is free. */
  ghost predicate AllTaken(c: seq<Buffer>) { forall k :: 0 <= k < |c| ==> c[k].name != "" }

  predicate OwnedIn(c: seq<Buffer>, id: int, pid: int) { LiveIn(c, id) && c[id].owner == pid }

  predicate BufferOk(b: Buffer) { Shaped(b.queue) && (b.name != "" ==> Contiguous(b.queue) && |b.conns| == MAX_CONN) }

  /** What every live buffer keeps. */
  predicate BuffersOk(c: seq<Buffer>) { forall k :: 0 <= k < |c| ==> BufferOkAt(c, k) }

  predicate BufferOkAt(c: seq<Buffer>, k: nat)
    requires k < |c|
  {
    BufferOk(c[k])
  }

  /** The senders that wait for buffer `id`, oldest first. */
  function Waiting(c: seq<Buffer>, id: nat): seq<int>
    requires BuffersOk(c) && LiveIn(c, id)
  {
    assert BufferOkAt(c, id);
    Fifo(c[id].queue)
  }

  /** The buffers that are in use and connected to `id`. */
  function Connected(c: seq<Buffer>, id: int): set<int> {
    set s | 0 <= s < |c| && c[s].name != "" && ConnFrom(c[s].conns, id, 0).Some?
  }

  /** Buffer `id` with another queue. */
  function WithQueue(c: seq<Buffer>, id: nat, q: Queue): seq<Buffer>
    requires id < |c|
  {
    c[id := c[id].(queue := q)]
  }

  lemma WithQueueKeeps(c: seq<Buffer>, id: nat, q: Queue)
    requires BuffersOk(c) && Distinct(c) && id < |c| && Contiguous(q)
    ensures var c' := WithQueue(c, id, q);
            && BuffersOk(c') && Distinct(c') && (LiveIn(c, id) ==> LiveIn(c', id))
            && forall r :: Connected(c', r) == Connected(c, r)
  {
    var c' := WithQueue(c, id, q);
    forall k | 0 <= k < |c'|
      ensures BufferOkAt(c', k)
    {
      assert BufferOkAt(c, k);
    }
    forall j: nat, k: nat
      ensures Apart(c', j, k)
    {
      assert Apart(c, j, k);
    }
  }

  /** `_conn_get` */
  function ConnFrom(conns: seq<Conn>, id: int, i: nat): (r: Option<Conn>)
    requires i <= |conns|
    ensures r.Some? ==> r.value in conns && r.value.id == id
    ensures r.None? ==> forall k :: i <= k < |conns| ==> conns[k].id != id
    decreases |conns| - i
  {
    if i == |conns| then None else if conns[i].id == id then Some(conns[i]) else ConnFrom(conns, id, i + 1)
  }

  /** The first place with a connection to `id`, or the last place if there is none. */
  function ConnPlace(conns: seq<Conn>, id: int, i: nat): (r: nat)
    requires i < |conns|
    ensures i <= r < |conns| && (r < |conns| - 1 ==> conns[r].id == id)
    ensures forall k :: i <= k < r ==> conns[k].id != id
    decreases |conns| - i
  {
    if i == |conns| - 1 || conns[i].id == id then i else ConnPlace(conns, id, i + 1)
  }

  /** The first `n` connections deleted. */
  function FreedTo(conns: seq<Conn>, n: nat): (r: seq<Conn>)
    requires n <= |conns|
    ensures |r| == |conns|
    ensures forall k :: 0 <= k < |r| ==> r[k] == if k < n && conns[k].id != -1 then Conn(-1, 0) else conns[k]
  {
    if n == 0 then conns
    else if conns[n - 1].id == -1 then FreedTo(conns, n - 1) else FreedTo(conns, n - 1)[n - 1 := Conn(-1, 0)]
  }

  /** The connection looked for is the next one. */
  lemma FreedPlace(conns: seq<Conn>, i: nat)
    requires i < |conns| && conns[i].id != -1
    ensures ConnPlace(FreedTo(conns, i), conns[i].id, 0) == i
  {
  }

  /** How `msgbuf_close` ends; `NullRead`: it reads through NULL, because a receiver is closed already. */
  datatype CloseResult = Closed | NoSuch | NullRead

  /** Connection `k` of buffer `id`, if there is one, can be deleted. */
  ghost predicate Deletable(c: seq<Buffer>, id: int, k: nat)
    requires 0 <= id < |c| && k < |c[id].conns|
  {
    c[id].size > 0 && c[id].conns[k].id != -1 ==> LiveIn(c, c[id].conns[k].id)
  }

  /** The first `n` connections of buffer `id` deleted. */
  function FreedUpTo(c: seq<Buffer>, id: nat, n: nat): seq<Buffer>
    requires id < |c| && n <= |c[id].conns|
  {
    c[id := c[id].(conns := FreedTo(c[id].conns, n))]
  }

  ghost predicate ReceiversLive(c: seq<Buffer>, id: int)
    requires 0 <= id < |c|
  {
    forall k :: 0 <= k < |c[id].conns| ==> Deletable(c, id, k)
  }

  ghost function CloseEnd(c: seq<Buffer>, id: int, pid: int): CloseResult {
    if !OwnedIn(c, id, pid) then NoSuch
    else if c[id].addr != 0 && !ReceiversLive(c, id) then NullRead
    else Closed
  }

  /** The slot after `msgbuf_close`. */
  function ClosedAt(c: seq<Buffer>, id: int): seq<Buffer>
    requires 0 <= id < |c|
  {
    c[id := c[id].(name := "", conns := if c[id].addr != 0 then FreedTo(c[id].conns, |c[id].conns|) else c[id].conns)]
  }

  /** How a close ends: only the owner of a live buffer closes it, and the source reads through NULL exactly if the
      buffer has memory of its own and some connection leads to a buffer that is gone. */
  lemma CloseEnds(c: seq<Buffer>, id: int, pid: int)
    ensures CloseEnd(c, id, pid) == NoSuch <==> !(0 <= id < |c| && c[id].name != "" && c[id].owner == pid)
    ensures CloseEnd(c, id, pid) != NoSuch ==>
      (CloseEnd(c, id, pid) == NullRead <==>
         c[id].addr != 0 && c[id].size > 0
         && exists k :: 0 <= k < |c[id].conns| && c[id].conns[k].id != -1
              && !(0 <= c[id].conns[k].id < |c| && c[c[id].conns[k].id].name != ""))
  {
    if OwnedIn(c, id, pid) {
      if k :| 0 <= k < |c[id].conns| && !Deletable(c, id, k) {
        assert !LiveIn(c, c[id].conns[k].id);
      }
      if k :| 0 <= k < |c[id].conns| && c[id].conns[k].id != -1 && !LiveIn(c, c[id].conns[k].id) && c[id].size > 0 {
        assert !Deletable(c, id, k);
      }
    }
  }

  /** What a close leaves: the name is gone, so is every connection if the buffer has memory of its own, and nothing
      else changes, also not the connections of others to it. */
  lemma CloseLeaves(c: seq<Buffer>, id: int)
    requires 0 <= id < |c|
    ensures var c' := ClosedAt(c, id); var a, b := c[id], c'[id];
            && |c'| == |c| && (forall k :: 0 <= k < |c| && k != id ==> c'[k] == c[k])
            && b.name == "" && b.(name := a.name, conns := a.conns) == a && |b.conns| == |a.conns|
            && forall k :: 0 <= k < |a.conns| ==>
                 if a.addr != 0 then b.conns[k].id == -1 && (a.conns[k].id == -1 ==> b.conns[k] == a.conns[k])
                 else b.conns[k] == a.conns[k]
  {}

  lemma SameLive(c: seq<Buffer>, c': seq<Buffer>, id: nat, r: int)
    requires id < |c| == |c'| && c' == c[id := c'[id]] && c'[id].name == c[id].name
    ensures LiveIn(c', r) <==> LiveIn(c, r)
  {
  }

  /** A connection written to a free place is found, and no other connection is disturbed. */
  lemma {:induction false} NewConnection(conns: seq<Conn>, place: nat, recvId: int, addr: nat, r: int, i: nat)
    requires i <= |conns| && place < |conns| && conns[place].id == -1 && recvId != -1 && r != -1
    requires ConnFrom(conns, recvId, i).None?
    ensures ConnFrom(conns[place := Conn(recvId, addr)], r, i)
            == if r == recvId && i <= place then Some(Conn(recvId, addr)) else ConnFrom(conns, r, i)
    decreases |conns| - i
  {
    if i < |conns| { NewConnection(conns, place, recvId, addr, r, i + 1); }
  }

  predicate Apart(c: seq<Buffer>, j: nat, k: nat) {
    j < k < |c| && c[j].name != "" ==> c[j].name != c[k].name
  }

  ghost predicate Distinct(c: seq<Buffer>) { forall j: nat, k: nat :: Apart(c, j, k) }

  function NodeAt(nodes: seq<Node>, i: nat): Node? { if i < |nodes| then nodes[i] else null }

  /** Node `i` has 18 slots and leads to the next. */
  ghost predicate ChainedAt(nodes: seq<Node>, i: nat)
    requires i < |nodes|
    reads nodes[i]
  {
    |nodes[i].buffers| == NODE_BUF_CNT && nodes[i].next == NodeAt(nodes, i + 1)
  }

  /** The nodes as a list. */
  ghost predicate Chained(nodes: seq<Node>)
    reads nodes
  {
    && (forall i :: 0 <= i < |nodes| ==> ChainedAt(nodes, i))
    && (forall i, j :: 0 <= i < j < |nodes| ==> nodes[i] != nodes[j])
  }

  class Registry {
    var first: Node?
    /** Kernel pages that are left. */
    var pages: nat
    ghost var nodes: seq<Node>

    constructor (pages: nat)
      ensures Valid() && nodes == [] && this.pages == pages
    {
      first, this.pages, nodes := null, pages, [];
    }

    ghost predicate Linked()
      reads this, nodes
    {
      first == NodeAt(nodes, 0) && Chained(nodes)
    }

    ghost function Count(): nat
      reads this
    {
      NODE_BUF_CNT * |nodes|
    }

    /** Slot number `id`. */
    ghost function Slot(id: nat): Buffer
      reads this, nodes
      requires Linked() && id < Count()
    {
      assert ChainedAt(nodes, id / NODE_BUF_CNT);
      nodes[id / NODE_BUF_CNT].buffers[id % NODE_BUF_CNT]
    }

    ghost function ContentsTo(n: nat): (c: seq<Buffer>)
      reads this, nodes
      requires Linked() && n <= Count()
      ensures |c| == n && forall k: nat :: k < n ==> c[k] == Slot(k)
    {
      if n == 0 then [] else ContentsTo(n - 1) + [Slot(n - 1)]
    }

    /** All slots in a row. */
    ghost function Contents(): (c: seq<Buffer>)
      reads this, nodes
      requires Linked()
      ensures |c| == Count() && forall k: nat :: k < |c| ==> c[k] == Slot(k)
    {
      ContentsTo(Count())
    }

    /** The names in use are all different. */
    ghost predicate Valid()
      reads this, nodes
    {
      Linked() && Distinct(Contents())
    }

    /** `_msgbuf_get`: the node of the slot, or null if the slot is not in use.  The source goes through the first
        node without looking whether there is one. */
    method Get(id: int) returns (n: Node?)
      requires Linked() && nodes != []
      ensures n != null <==> Live(id)
      ensures n != null <==> 0 <= id < Count() && Slot(id).name != ""
      ensures n != null ==> n == nodes[id / NODE_BUF_CNT]
    {
      // A negative ID becomes an index far beyond any list.
      if id < 0 { return null; }
      var listIdx, bufferIdx := id / NODE_BUF_CNT, id % NODE_BUF_CNT;
      var node := first;
      var left := listIdx;
      while left > 0
        invariant 0 <= left <= listIdx && listIdx - left < |nodes|
        invariant node == nodes[listIdx - left]
      {
        ghost var at := listIdx - left;
        assert ChainedAt(nodes, at);
        if node.next == null { return null; }
        node := node.next;
        left := left - 1;
      }
      assert ChainedAt(nodes, listIdx);
      if node.buffers[bufferIdx].name == "" { return null; }
      return node;
    }

    /** Slot `id` is in use. */
    ghost predicate Live(id: int)
      reads this, nodes
      requires Linked()
    {
      LiveIn(Contents(), id)
    }

    /** The first empty slot, if one of the first `n` is empty. */
    ghost predicate FirstEmpty(id: int, n: nat)
      reads this, nodes
      requires Linked() && n <= Count()
    {
      if id == -1 then forall k: nat :: k < n ==> Slot(k).name != ""
      else 0 <= id < n && Slot(id).name == "" && forall k: nat :: k < id ==> Slot(k).name != ""
    }

    /** A page for a new node at the end of the list; None if memory has run out. */
    method Append(last: Node?) returns (r: Node?)
      requires Linked() && last == if nodes == [] then null else nodes[|nodes| - 1]
      modifies this, last
      ensures Linked()
      ensures r == null <==> old(pages) == 0
      ensures r == null ==> nodes == old(nodes) && pages == 0 && first == old(first)
                            && (last != null ==> last.next == old(last.next))
      ensures r != null ==> fresh(r) && nodes == old(nodes) + [r] && pages == old(pages) - 1 && r.buffers == Blanks(NODE_BUF_CNT)
      ensures last != null ==> last.buffers == old(last.buffers)
    {
      if pages == 0 { return null; }
      pages := pages - 1;
      r := new Node();
      if last == null {
        first := r;
      } else {
        last.next := r;
      }
      nodes := nodes + [r];
      forall i | 0 <= i < |nodes|
        ensures ChainedAt(nodes, i)
      {
        if i < |nodes| - 1 { assert old(ChainedAt(nodes, i)); }
      }
    }

    ghost predicate NoName(name: string, n: nat)
      reads this, nodes
      requires Linked() && n <= Count()
    {
      forall k: nat :: k < n ==> Slot(k).name != name
    }

    lemma SlotAt(listIdx: nat, b: nat)
      requires Linked() && listIdx < |nodes| && b < NODE_BUF_CNT
      ensures NODE_BUF_CNT * listIdx + b < Count()
      ensures |nodes[listIdx].buffers| == NODE_BUF_CNT && Slot(NODE_BUF_CNT * listIdx + b) == nodes[listIdx].buffers[b]
    {
      assert ChainedAt(nodes, listIdx);
    }

    /** A name less leaves the others distinct. */
    lemma ClearedOk(c: seq<Buffer>, c': seq<Buffer>, id: nat)
      requires Linked() && c' == Contents() && BuffersOk(c) && Distinct(c) && LiveIn(c, id) && c' == c[id := c[id].(name := "")]
      ensures Valid() && BuffersOk(c')
    {
      forall j: nat, k: nat
        ensures Apart(c', j, k)
      {
        assert Apart(c, j, k);
      }
      forall k | 0 <= k < |c'|
        ensures BufferOkAt(c', k)
      {
        assert BufferOkAt(c, k);
      }
    }

    /** The inner loop of `_msgbuf_alloc`: one node is searched for the name and for the first empty slot. */
    method ScanNode(node: Node, listIdx: nat, name: string, id: int) returns (clash: bool, found: int)
      requires Linked() && listIdx < |nodes| && node == nodes[listIdx]
      requires FirstEmpty(id, NODE_BUF_CNT * listIdx) && NoName(name, NODE_BUF_CNT * listIdx)
      ensures clash ==> !NoName(name, Count())
      ensures !clash ==> NoName(name, NODE_BUF_CNT * (listIdx + 1)) && FirstEmpty(found, NODE_BUF_CNT * (listIdx + 1))
    {
      found := id;
      assert ChainedAt(nodes, listIdx);
      for b := 0 to NODE_BUF_CNT
        invariant NoName(name, NODE_BUF_CNT * listIdx + b)
        invariant FirstEmpty(found, NODE_BUF_CNT * listIdx + b)
      {
        SlotAt(listIdx, b);
        if node.buffers[b].name == name {
          return true, -1;
        }
        if found == -1 && |node.buffers[b].name| == 0 {
          found := listIdx * NODE_BUF_CNT + b;
        }
      }
      return false, found;
    }

    /** The slots are `c`, followed by blank ones. */
    ghost predicate GrownFrom(c: seq<Buffer>)
      reads this, nodes
      requires Linked()
    {
      && |c| <= Count()
      && (forall k: nat :: k < |c| ==> Slot(k) == c[k])
      && (forall k: nat :: |c| <= k < Count() ==> Slot(k) == BLANK)
    }

    method Next(node: Node, listIdx: nat) returns (next: Node?)
      requires Linked() && listIdx < |nodes| && node == nodes[listIdx]
      ensures next == NodeAt(nodes, listIdx + 1)
    {
      assert ChainedAt(nodes, listIdx);
      next := node.next;
    }

    /** The list is extended; slots keep their numbers. */
    method Extend(last: Node?, ghost c: seq<Buffer>) returns (r: Node?)
      requires Linked() && GrownFrom(c) && last == if nodes == [] then null else nodes[|nodes| - 1]
      modifies this, last
      ensures Linked() && GrownFrom(c)
      ensures r == null <==> old(pages) == 0
      ensures r == null ==> nodes == old(nodes) && pages == 0
      ensures r != null ==> fresh(r) && nodes == old(nodes) + [r] && pages == old(pages) - 1
      ensures forall k: nat :: k < old(Count()) ==> Slot(k) == old(Slot(k))
    {
      r := Append(last);
      forall k: nat | k < Count()
        ensures Slot(k) == if k < old(Count()) then old(Slot(k)) else BLANK
      {
        if k >= old(Count()) {
          assert k / NODE_BUF_CNT == |nodes| - 1 && nodes[|nodes| - 1] == r;
          assert r.buffers[k % NODE_BUF_CNT] == BLANK;
        } else {
          assert k / NODE_BUF_CNT < |old(nodes)|;
          assert nodes[k / NODE_BUF_CNT] == old(nodes)[k / NODE_BUF_CNT];
        }
      }
    }

    /** What the search has seen before slot `n`. */
    ghost predicate Seen(name: string, id: int, node: Node?, n: nat)
      reads this, nodes
      requires Linked() && n <= Count()
    {
      FirstEmpty(id, n) && NoName(name, n) && (id >= 0 ==> node == nodes[id / NODE_BUF_CNT])
    }

    lemma SeenStill(name: string, id: int, node: Node?, n: nat, c: seq<Buffer>)
      requires Linked() && n <= |c| <= Count() && (forall k: nat :: k < |c| ==> Slot(k) == c[k])
      requires (if id == -1 then forall k: nat :: k < n ==> c[k].name != ""
                else 0 <= id < n && c[id].name == "" && forall k: nat :: k < id ==> c[k].name != "")
      requires forall k: nat :: k < n ==> c[k].name != name
      requires id >= 0 ==> node == nodes[id / NODE_BUF_CNT]
      ensures Seen(name, id, node, n)
    {}

    /** One turn of the outer loop: the next node, or null at the end of the search. */
    method Visit(node: Node, listIdx: nat, name: string, id: int, n: Node?, ghost c: seq<Buffer>)
      returns (err: Err, next: Node?, id': int, n': Node?)
      requires Linked() && GrownFrom(c) && listIdx < |nodes| && node == nodes[listIdx]
      requires Seen(name, id, n, NODE_BUF_CNT * listIdx)
      modifies this, node
      ensures Linked() && GrownFrom(c) && pages <= old(pages)
      ensures old(nodes) <= nodes && |nodes| <= |old(nodes)| + 1
      ensures forall i :: |old(nodes)| <= i < |nodes| ==> fresh(nodes[i])
      ensures |nodes| + pages == |old(nodes)| + old(pages)
      ensures err == ErrOk || err == ErrExs || err == ErrOom
      ensures err == ErrExs ==> !NoName(name, Count())
      ensures err == ErrOom ==> Seen(name, -1, null, Count()) && pages == 0
      ensures err == ErrOk && next == null ==> id' >= 0 && Seen(name, id', n', Count())
      ensures err == ErrOk && next != null ==>
        listIdx + 1 < |nodes| && next == nodes[listIdx + 1] && Seen(name, id', n', NODE_BUF_CNT * (listIdx + 1))
    {
      var clash, found := ScanNode(node, listIdx, name, id);
      id', n' := found, n;
      if clash { return ErrExs, null, -1, null; }
      if id == -1 && found >= 0 {
        n' := node;
      }
      ghost var before := Contents();
      next := Next(node, listIdx);
      if next == null && id' == -1 {
        next := Extend(node, c);
        if next == null { return ErrOom, null, -1, null; }
        SeenStill(name, id', n', NODE_BUF_CNT * (listIdx + 1), before);
      }
      return ErrOk, next, id', n';
    }

    /** `_msgbuf_alloc` up to the choice of the slot; `n` is the node of the slot. */
    method FindSlot(name: string) returns (id: int, n: Node?, err: Err)
      requires Linked() && name != ""
      modifies this, nodes
      ensures Linked() && GrownFrom(old(Contents()))
      ensures forall i :: 0 <= i < |nodes| && nodes[i] !in old(nodes) ==> fresh(nodes[i])
      ensures err == ErrOk || err == ErrExs || err == ErrOom
      ensures err == ErrOk ==> id >= 0 && Seen(name, id, n, Count())
      ensures err == ErrExs ==> !NoName(name, Count())
      ensures err == ErrOom ==> Seen(name, -1, null, Count()) && pages == 0
      ensures |nodes| + pages == |old(nodes)| + old(pages)
    {
      ghost var c := Contents();
      n, id := null, -1;
      if first == null {
        var page := Extend(null, c);
        if page == null { return -1, null, ErrOom; }
      }
      var node := first;
      var listIdx: nat := 0;
      while true
        invariant Linked() && GrownFrom(c) && listIdx < |nodes| && node == nodes[listIdx]
        invariant forall i :: 0 <= i < |nodes| && nodes[i] !in old(nodes) ==> fresh(nodes[i])
        invariant Seen(name, id, n, NODE_BUF_CNT * listIdx)
        invariant |nodes| + pages == |old(nodes)| + old(pages)
        decreases pages, |nodes| - listIdx
      {
        var next;
        err, next, id, n := Visit(node, listIdx, name, id, n, c);
        if err != ErrOk { return -1, null, err; }
        if next == null { break; }
        node := next;
        listIdx := listIdx + 1;
      }
      return id, n, ErrOk;
    }

    /** The contents of slot `id`. */
    method Read(n: Node, id: nat) returns (buffer: Buffer)
      requires Linked() && id < Count() && n == nodes[id / NODE_BUF_CNT]
      ensures buffer == Slot(id) == Contents()[id]
    {
      assert ChainedAt(nodes, id / NODE_BUF_CNT);
      buffer := n.buffers[id % NODE_BUF_CNT];
    }

    /** Slot `id` becomes `buffer`. */
    method Store(n: Node, id: nat, buffer: Buffer)
      requires Linked() && id < Count() && n == nodes[id / NODE_BUF_CNT]
      modifies n
      ensures Linked() && Contents() == old(Contents())[id := buffer]
    {
      assert ChainedAt(nodes, id / NODE_BUF_CNT);
      n.buffers := n.buffers[id % NODE_BUF_CNT := buffer];
      forall i | 0 <= i < |nodes|
        ensures ChainedAt(nodes, i)
      {
        assert old(ChainedAt(nodes, i));
      }
      forall k: nat | k < Count()
        ensures Slot(k) == if k == id then buffer else old(Slot(k))
      {
        SameNode(id, k);
      }
    }

    /** `_msgbuf_alloc`, for names of one to 31 characters. */
    method Alloc(name: string) returns (id: int, err: Err)
      requires Valid() && 0 < |name| <= 31
      modifies this, nodes
      ensures Valid()
      ensures err == ErrOk || err == ErrExs || err == ErrOom
      ensures err == ErrExs <==> exists k :: 0 <= k < old(Count()) && old(Contents())[k].name == name
      ensures err == ErrOom <==> err != ErrExs && old(pages) == 0 && AllTaken(old(Contents()))
      ensures err != ErrOk ==> id == -1 && GrownFrom(old(Contents()))
      ensures err == ErrOk ==> 0 <= id < Count() && Named(old(Contents()), Contents(), id, name)
      ensures err == ErrOk ==>
        && Contents()[id].name == name && LowestFree(old(Contents()), id)
        && (id < old(Count()) ==> Contents()[id] == old(Contents())[id].(name := name))
      ensures forall i :: 0 <= i < |nodes| && nodes[i] !in old(nodes) ==> fresh(nodes[i])
    {
      var n;
      ghost var c := Contents();
      id, n, err := FindSlot(name);
      GrownNames(c, name);
      if err != ErrOk { return -1, err; }
      SetName(n, id, name);
    }

    /** Blank slots at the end add no name. */
    lemma GrownNames(c: seq<Buffer>, name: string)
      requires Linked() && Distinct(c) && GrownFrom(c) && name != ""
      ensures Valid() && (NoName(name, Count()) <==> forall k :: 0 <= k < |c| ==> c[k].name != name)
    {
      forall j: nat, k: nat
        ensures Apart(Contents(), j, k)
      {
        assert Apart(c, j, k);
      }
    }

    /** Slot `id` gets a name that no slot has. */
    method SetName(n: Node, id: nat, name: string)
      requires Valid() && id < Count() && n == nodes[id / NODE_BUF_CNT] && NoName(name, Count())
      modifies n
      ensures Valid()
      ensures Contents() == old(Contents())[id := old(Contents())[id].(name := name)]
    {
      ghost var c := Contents();
      var buffer := Read(n, id);
      Store(n, id, buffer.(name := name));
      forall j: nat, k: nat
        ensures Apart(Contents(), j, k)
      {
        assert Apart(c, j, k);
      }
    }

    /** A change that leaves all names alone leaves them distinct. */
    lemma SameNames(c: seq<Buffer>)
      requires Linked() && Distinct(c) && |c| == Count() && forall k: nat :: k < Count() ==> Slot(k).name == c[k].name
      ensures Valid()
    {
      forall j: nat, k: nat
        ensures Apart(Contents(), j, k)
      {
        assert Apart(c, j, k);
      }
    }

    lemma SameNode(id: nat, k: nat)
      requires Linked() && id < Count() && k < Count()
      ensures nodes[k / NODE_BUF_CNT] == nodes[id / NODE_BUF_CNT] && k % NODE_BUF_CNT == id % NODE_BUF_CNT <==> k == id
      ensures k / NODE_BUF_CNT != id / NODE_BUF_CNT ==> nodes[k / NODE_BUF_CNT] != nodes[id / NODE_BUF_CNT]
    {}

    // -------------------------------------------------------------- sending and receiving

    /** `_conn_get` */
    method ConnGet(n: Node, id: nat, recvId: int) returns (r: Option<Conn>)
      requires Linked() && id < Count() && n == nodes[id / NODE_BUF_CNT] && |Contents()[id].conns| == MAX_CONN
      ensures r == ConnFrom(Contents()[id].conns, recvId, 0)
    {
      var buffer := Read(n, id);
      var conns := buffer.conns;
      for i := 0 to MAX_CONN
        invariant ConnFrom(conns, recvId, 0) == ConnFrom(conns, recvId, i)
      {
        if conns[i].id == recvId { return Some(conns[i]); }
      }
      return None;
    }

    /** `_conn_alloc`: the first free place for a connection of buffer `id`, unless it is connected already. */
    method ConnAlloc(n: Node, id: nat, recvId: int) returns (place: int, err: Err)
      requires Linked() && id < Count() && n == nodes[id / NODE_BUF_CNT] && |Contents()[id].conns| == MAX_CONN
      ensures var conns := Contents()[id].conns;
              && err == (if ConnFrom(conns, recvId, 0).Some? then ErrCoe else if ConnFrom(conns, -1, 0).None? then ErrCof else ErrOk)
              && (err == ErrOk ==>
                    0 <= place < MAX_CONN && conns[place].id == -1 && forall k :: 0 <= k < place ==> conns[k].id != -1)
    {
      var buffer := Read(n, id);
      var conns := buffer.conns;
      place := -1;
      for i := 0 to MAX_CONN
        invariant ConnFrom(conns, recvId, 0) == ConnFrom(conns, recvId, i)
        invariant if place == -1 then forall k :: 0 <= k < i ==> conns[k].id != -1
                  else 0 <= place < i && conns[place].id == -1 && forall k :: 0 <= k < place ==> conns[k].id != -1
      {
        if place == -1 && conns[i].id == -1 { place := i; }
        if conns[i].id == recvId { return -1, ErrCoe; }
      }
      return place, if place == -1 then ErrCof else ErrOk;
    }

    /** `_msgbuf_queue_pop` */
    method QueuePop(n: Node, id: nat) returns (sender: int)
      requires Linked() && id < Count() && n == nodes[id / NODE_BUF_CNT] && Contiguous(Contents()[id].queue)
      modifies n
      ensures Linked()
      ensures var q := old(Contents())[id].queue;
              && sender == (if MsgbufQueue.Count(q) == 0 then -1 else q.slots[q.pos])
              && Contents() == if sender == -1 then old(Contents()) else WithQueue(old(Contents()), id, Popped(q))
      ensures old(Contents())[id].queue.slots[old(Contents())[id].queue.pos] == sender
    {
      var buffer := Read(n, id);
      var pos := buffer.queue.pos;
      sender := buffer.queue.slots[pos];
      assert At(buffer.queue, 0) == sender;
      if sender == -1 { return -1; }
      Store(n, id, buffer.(queue := Queue(buffer.queue.slots[pos := -1], (pos + 1) % QUEUE_SIZE)));
    }

    /** `_msgbuf_queue_push` */
    method QueuePush(n: Node, id: nat, sender: int) returns (ok: bool)
      requires Linked() && id < Count() && n == nodes[id / NODE_BUF_CNT] && Contiguous(Contents()[id].queue)
      modifies n
      ensures Linked()
      ensures var q := old(Contents())[id].queue;
              && ok == (MsgbufQueue.Count(q) < QUEUE_SIZE)
              && Contents() == if ok then WithQueue(old(Contents()), id, Pushed(q, sender)) else old(Contents())
    {
      var buffer := Read(n, id);
      var q := buffer.queue;
      var i := q.pos;
      while i < QUEUE_SIZE + q.pos
        invariant q.pos <= i <= QUEUE_SIZE + q.pos && i - q.pos <= MsgbufQueue.Count(q)
        invariant Contents() == old(Contents())
      {
        assert i % QUEUE_SIZE == Place(q.pos, i - q.pos);
        if q.slots[i % QUEUE_SIZE] == -1 {
          assert At(q, i - q.pos) == -1;
          Store(n, id, buffer.(queue := q.(slots := q.slots[i % QUEUE_SIZE := sender])));
          return true;
        }
        i := i + 1;
      }
      return false;
    }

    /** The part of `msgbuf_create` after the allocation of the slot: a new buffer is empty and connected to none. */
    method Prepare(id: nat, pid: int)
      requires Valid() && LiveIn(Contents(), id) && Shaped(Contents()[id].queue)
      modifies nodes
      ensures Valid()
      ensures Contents() == old(Contents())[id := Contents()[id]]
      ensures Contents()[id] == old(Contents())[id].(owner := pid, queue := Contents()[id].queue, conns := NO_CONNS)
      ensures Contiguous(Contents()[id].queue) && Fifo(Contents()[id].queue) == []
    {
      ghost var c := Contents();
      var n := Get(id);
      var buffer := Read(n, id);
      var slots := buffer.queue.slots;
      for p := 0 to QUEUE_SIZE
        invariant |slots| == 8 && forall k :: 0 <= k < p ==> slots[k] == -1
      {
        slots := slots[p := -1];
      }
      var queue := Queue(slots, buffer.queue.pos);
      assert forall k :: 0 <= k < 8 ==> At(queue, k) == -1;
      CountIs(queue, 0);
      Store(n, id, buffer.(owner := pid, queue := queue, conns := NO_CONNS));
      SameNames(c);
    }

    method PopNext(n: Node, id: nat) returns (sender: int)
      requires Valid() && BuffersOk(Contents()) && LiveIn(Contents(), id) && n == nodes[id / NODE_BUF_CNT]
      modifies n
      ensures Linked() && OnlyQueue(old(Contents()), Contents(), id)
      ensures Waiting(old(Contents()), id) == (if sender == -1 then [] else [sender]) + Waiting(Contents(), id)
      ensures sender == -1 ==> Waiting(Contents(), id) == []
    {
      ghost var c := Contents();
      assert BufferOkAt(c, id);
      sender := QueuePop(n, id);
      PopKeeps(c, Contents(), id, sender);
    }

    /** Is the sender live and connected to `id`?  If so, where its buffer is. */
    method Check(sendId: int, id: nat) returns (addr: Option<nat>)
      requires Linked() && BuffersOk(Contents()) && nodes != []
      ensures addr.Some? <==> sendId in Connected(Contents(), id)
      ensures addr.Some? ==> BufferAt(Contents(), sendId, id, addr.value)
    {
      var sender := Get(sendId);
      if sender == null { return None; }
      assert BufferOkAt(Contents(), sendId);
      var conn := ConnGet(sender, sendId, id);
      if conn.None? { return None; }
      return Some(conn.value.addr);
    }

    /** One turn of the loop of `msgbuf_recv`: one sender is looked at, or the queue is empty. */
    method RecvTurn(receiver: Node, id: nat, ghost f: seq<int>, ghost d: nat, ghost g: set<int>)
      returns (res: Option<Received>)
      requires Valid() && BuffersOk(Contents()) && LiveIn(Contents(), id) && receiver == nodes[id / NODE_BUF_CNT]
      requires Connected(Contents(), id) == g && Dropped(f, d, g, Waiting(Contents(), id))
      modifies receiver
      ensures Linked() && OnlyQueue(old(Contents()), Contents(), id)
      ensures res.None? ==> Dropped(f, d + 1, g, Waiting(Contents(), id))
      ensures res.Some? ==> Delivered(res.value, f, g, Contents(), id, Waiting(Contents(), id))
    {
      var sendId := PopNext(receiver, id);
      if sendId == -1 {
        DropEnd(f, d, g, Contents(), id);
        return Some(Asleep);
      }
      var addr := Check(sendId, id);
      if addr.Some? {
        DropHit(f, d, g, sendId, Waiting(Contents(), id), Contents(), id, addr.value);
        return Some(From(sendId, addr.value));
      }
      DropOne(f, d, g, sendId, Waiting(Contents(), id));
      return None;
    }

    /** The loop of `msgbuf_recv`, until it returns or its caller goes to sleep.  On waking up the caller goes on with
        this loop; owner and buffer are not looked at again. */
    method RecvLoop(receiver: Node, id: nat) returns (res: Received)
      requires Valid() && BuffersOk(Contents()) && LiveIn(Contents(), id) && receiver == nodes[id / NODE_BUF_CNT]
      modifies receiver
      ensures Linked() && OnlyQueue(old(Contents()), Contents(), id)
      ensures Delivered(res, Waiting(old(Contents()), id), Connected(old(Contents()), id), old(Contents()), id,
                        Waiting(Contents(), id))
    {
      ghost var c := Contents();
      ghost var f, g := Waiting(c, id), Connected(c, id);
      ghost var d: nat := 0;
      while true
        invariant Linked() && OnlyQueue(c, Contents(), id) && receiver == nodes[id / NODE_BUF_CNT]
        invariant Dropped(f, d, g, Waiting(Contents(), id))
        decreases |f| - d
      {
        ghost var c1 := Contents();
        var turn := RecvTurn(receiver, id, f, d, g);
        OnlyQueueTrans(c, c1, Contents(), id);
        if turn.Some? {
          SameBuffers(turn.value, f, g, c, Contents(), id, Waiting(Contents(), id));
          return turn.value;
        }
        d := d + 1;
      }
    }

    /** `msgbuf_recv`: the senders that wait for `id` are looked at from the oldest on; those that are closed or no
        longer connected are dropped, the first other one is returned. */
    method Recv(id: int, pid: int) returns (res: Received)
      requires Valid() && BuffersOk(Contents()) && nodes != []
      modifies nodes
      ensures Valid() && BuffersOk(Contents())
      ensures RecvResult(old(Contents()), Contents(), id, pid, res)
    {
      var receiver := Get(id);
      if receiver == null { return NotFound; }
      var buffer := Read(receiver, id);
      if buffer.owner != pid { return NotFound; }
      res := RecvLoop(receiver, id);
    }

    /** `msgbuf_send`: the sender joins the queue of the receiver, unless that is full
        and the sender goes to sleep.  On waking up it goes on with the push (PushTo), without a look at owner and
        connection. */
    method Send(sendId: int, recvId: int, pid: int, noblock: bool) returns (res: Sent)
      requires Valid() && BuffersOk(Contents()) && nodes != []
      modifies nodes
      ensures Valid() && BuffersOk(Contents())
      ensures SendResult(old(Contents()), Contents(), sendId, recvId, pid, noblock, res)
    {
      ghost var c := Contents();
      var sender := Get(sendId);
      var receiver := Get(recvId);
      if sender == null || receiver == null { return NoBuffer; }
      res := SendTo(sender, sendId, receiver, recvId, pid, noblock);
    }

    /** The part of `msgbuf_send` after both buffers were found. */
    method SendTo(sender: Node, sendId: nat, receiver: Node, recvId: nat, pid: int, noblock: bool) returns (res: Sent)
      requires Valid() && BuffersOk(Contents()) && LiveIn(Contents(), sendId) && LiveIn(Contents(), recvId)
      requires sender == nodes[sendId / NODE_BUF_CNT] && receiver == nodes[recvId / NODE_BUF_CNT]
      modifies receiver
      ensures Valid() && BuffersOk(Contents())
      ensures SendResult(old(Contents()), Contents(), sendId, recvId, pid, noblock, res)
    {
      ghost var c := Contents();
      var buffer := Read(sender, sendId);
      if buffer.owner != pid { return NoBuffer; }
      assert BufferOkAt(c, sendId);
      var conn := ConnGet(sender, sendId, recvId);
      if conn.None? { return NotConnected; }
      var ok := PushTo(receiver, recvId, sendId);
      SendPushed(c, Contents(), sendId, recvId, pid, noblock, ok);
      if !ok { return Full; }
      var target := Read(receiver, recvId);
      return Queued(target.owner, !noblock);
    }

    method PushTo(n: Node, id: nat, sender: int) returns (ok: bool)
      requires Valid() && BuffersOk(Contents()) && LiveIn(Contents(), id) && n == nodes[id / NODE_BUF_CNT] && sender != -1
      modifies n
      ensures Linked() && OnlyQueue(old(Contents()), Contents(), id)
      ensures ok == (|Waiting(old(Contents()), id)| != QUEUE_SIZE)
      ensures Waiting(Contents(), id) == Waiting(old(Contents()), id) + (if ok then [sender] else [])
      ensures !ok ==> Contents() == old(Contents())
    {
      ghost var c := Contents();
      assert BufferOkAt(c, id);
      ok := QueuePush(n, id, sender);
      PushKeeps(c, Contents(), id, sender, ok);
    }

    /** `_conn_free`, but for the pages it unmaps: the first connection to `recvId` is deleted, or the last of all if there
        is none.  None: the receiver is closed, and the source reads its owner through NULL if there are pages to unmap. */
    method ConnFree(n: Node, id: nat, recvId: int) returns (place: Option<nat>)
      requires Valid() && BuffersOk(Contents()) && LiveIn(Contents(), id) && n == nodes[id / NODE_BUF_CNT]
      modifies n
      ensures Valid() && BuffersOk(Contents())
      ensures assert BufferOkAt(old(Contents()), id);
              var b := old(Contents())[id]; var i := ConnPlace(b.conns, recvId, 0);
              if b.size > 0 && !LiveIn(old(Contents()), b.conns[i].id) then place.None? && Contents() == old(Contents())
              else place == Some(i) && Contents() == old(Contents())[id := b.(conns := b.conns[i := Conn(-1, 0)])]
    {
      ghost var c := Contents();
      assert BufferOkAt(c, id);
      var buffer := Read(n, id);
      var i := 0;
      while i < MAX_CONN - 1 && buffer.conns[i].id != recvId
        invariant i <= MAX_CONN - 1 && ConnPlace(buffer.conns, recvId, 0) == ConnPlace(buffer.conns, recvId, i)
      {
        i := i + 1;
      }
      NodesExist(id);
      var receiver := Get(buffer.conns[i].id);
      if receiver == null && buffer.size > 0 { return None; }
      Store(n, id, buffer.(conns := buffer.conns[i := Conn(-1, 0)]));
      SameNames(c);
      ReplacedOk(c, Contents(), id);
      return Some(i);
    }

    lemma NodesExist(id: nat)
      requires Linked() && LiveIn(Contents(), id)
      ensures nodes != []
    {
    }

    /** `msgbuf_close`, but for the pages it unmaps and frees: the name is cleared, and with a buffer of its own also the
        connections.  Connections of others to this slot stay. */
    method Close(id: int, pid: int) returns (res: CloseResult)
      requires Valid() && BuffersOk(Contents()) && nodes != []
      modifies nodes
      ensures Valid() && BuffersOk(Contents())
      ensures res == CloseEnd(old(Contents()), id, pid)
      ensures res.NoSuch? ==> Contents() == old(Contents())
      ensures res.Closed? ==> Contents() == ClosedAt(old(Contents()), id)
    {
      ghost var c := Contents();
      var n := Get(id);
      if n == null { return NoSuch; }
      var buffer := Read(n, id);
      if buffer.owner != pid { return NoSuch; }
      if buffer.addr != 0 {
        var ok := FreeConns(n, id);
        if !ok { return NullRead; }
      }
      ClearName(n, id);
      return Closed;
    }

    method ClearName(n: Node, id: nat)
      requires Valid() && BuffersOk(Contents()) && LiveIn(Contents(), id) && n == nodes[id / NODE_BUF_CNT]
      modifies n
      ensures Valid() && BuffersOk(Contents())
      ensures Contents() == old(Contents())[id := old(Contents())[id].(name := "")]
    {
      ghost var c := Contents();
      var buffer := Read(n, id);
      Store(n, id, buffer.(name := ""));
      ClearedOk(c, Contents(), id);
    }

    /** The loop over the connections. */
    method FreeConns(n: Node, id: nat) returns (ok: bool)
      requires Valid() && BuffersOk(Contents()) && LiveIn(Contents(), id) && n == nodes[id / NODE_BUF_CNT]
      modifies n
      ensures Valid() && BuffersOk(Contents())
      ensures ok <==> ReceiversLive(old(Contents()), id)
      ensures ok ==> var b := old(Contents())[id]; Contents() == old(Contents())[id := b.(conns := FreedTo(b.conns, |b.conns|))]
    {
      ghost var c := Contents();
      assert BufferOkAt(c, id);
      assert c == c[id := c[id].(conns := FreedTo(c[id].conns, 0))];
      for i := 0 to MAX_CONN
        invariant Valid() && BuffersOk(Contents()) && Contents() == FreedUpTo(c, id, i)
        invariant forall k :: 0 <= k < i ==> Deletable(c, id, k)
      {
        ok := FreeOne(n, id, i, c);
        if !ok { return false; }
      }
      return true;
    }

    /** One turn. */
    method FreeOne(n: Node, id: nat, i: nat, ghost c: seq<Buffer>) returns (ok: bool)
      requires Valid() && BuffersOk(Contents()) && BuffersOk(c) && LiveIn(c, id) && |c| == Count()
      requires n == nodes[id / NODE_BUF_CNT] && i < MAX_CONN && i < |c[id].conns| && Contents() == FreedUpTo(c, id, i)
      modifies n
      ensures Valid() && BuffersOk(Contents())
      ensures ok <==> Deletable(c, id, i)
      ensures ok ==> Contents() == FreedUpTo(c, id, i + 1)
    {
      var buffer := Read(n, id);
      assert BufferOkAt(Contents(), id);
      if buffer.conns[i].id == -1 { return true; }
      FreedPlace(c[id].conns, i);
      SameLive(c, Contents(), id, buffer.conns[i].id);
      var place := ConnFree(n, id, buffer.conns[i].id);
      return place.Some?;
    }

    /** `msgbuf_create`, for names that do not have exactly 32 characters.  `mapped` is what the mapping of the buffer
        gives, if one is asked for: no memory for a page, or an address (0 when a page could be had and not mapped: the
        source then reports no error).  When the mapping fails the slot stays taken. */
    method Create(name: string, size: nat, sendBuf: bool, mapped: Option<nat>, pid: int) returns (id: int, err: Err)
      requires Valid() && BuffersOk(Contents()) && |name| != 32
      modifies this, nodes
      ensures Valid() && BuffersOk(Contents())
      ensures err == ErrNam <==> name == "" || |name| > 32
      ensures err == ErrSiz <==> err != ErrNam && sendBuf && size == 0
      ensures err == ErrNam || err == ErrSiz ==> id == -1 && Contents() == old(Contents())
      ensures err == ErrExs <==>
        err != ErrNam && err != ErrSiz && exists k :: 0 <= k < |old(Contents())| && old(Contents())[k].name == name
      ensures err == ErrOk || err == ErrExs || err == ErrOom || err == ErrNam || err == ErrSiz
      ensures err != ErrOk ==> id == -1
      ensures err == ErrExs ==> GrownFrom(old(Contents()))
      ensures err == ErrOom ==>
        (old(pages) == 0 && AllTaken(old(Contents())) && GrownFrom(old(Contents())))
        || (sendBuf && mapped.None? && exists k :: Made(old(Contents()), Contents(), k, name, pid))
      ensures err == ErrOk ==>
        && Made(old(Contents()), Contents(), id, name, pid) && LowestFree(old(Contents()), id) && (sendBuf ==> mapped.Some?)
        && Contents()[id].addr == (if sendBuf then mapped.value else 0)
        && Contents()[id].size == (if sendBuf then size else 0)
    {
      if name == "" || |name| > 32 { return -1, ErrNam; }
      if sendBuf && size == 0 { return -1, ErrSiz; }
      ghost var c := Contents();
      id, err := CreateSlot(name, pid);
      if err != ErrOk { return; }
      ghost var c1 := Contents();
      if sendBuf && mapped.None? { return -1, ErrOom; }
      SetBuffer(id, if sendBuf then mapped.value else 0, if sendBuf then size else 0);
      MadeWith(c, c1, Contents(), id, name, pid);
    }

    /** The part of `msgbuf_create` that has nothing to do with the buffer. */
    method CreateSlot(name: string, pid: int) returns (id: int, err: Err)
      requires Valid() && BuffersOk(Contents()) && 0 < |name| <= 31
      modifies this, nodes
      ensures Valid() && BuffersOk(Contents())
      ensures err == ErrOk || err == ErrExs || err == ErrOom
      ensures err == ErrExs <==> exists k :: 0 <= k < |old(Contents())| && old(Contents())[k].name == name
      ensures err != ErrOk ==> id == -1 && GrownFrom(old(Contents()))
      ensures err == ErrOom <==> err != ErrExs && old(pages) == 0 && AllTaken(old(Contents()))
      ensures err == ErrOk ==> Made(old(Contents()), Contents(), id, name, pid) && LowestFree(old(Contents()), id)
      ensures forall i :: 0 <= i < |nodes| && nodes[i] !in old(nodes) ==> fresh(nodes[i])
    {
      ghost var c := Contents();
      id, err := Alloc(name);
      if err != ErrOk {
        GrownOk(c, Contents());
        return;
      }
      assert id < |c| ==> BufferOkAt(c, id);
      Prepare(id, pid);
      ReplacedOk(c, Contents(), id);
    }

    /** The buffer itself. */
    method SetBuffer(id: nat, addr: nat, size: nat)
      requires Valid() && BuffersOk(Contents()) && LiveIn(Contents(), id)
      modifies nodes
      ensures Valid() && BuffersOk(Contents())
      ensures Contents() == old(Contents())[id := old(Contents())[id].(addr := addr, size := size)]
    {
      ghost var c := Contents();
      var n := Get(id);
      assert BufferOkAt(c, id);
      var buffer := Read(n, id);
      Store(n, id, buffer.(addr := addr, size := size));
      SameNames(c);
      ReplacedOk(c, Contents(), id);
    }
  }

  /** No slot before `id` is free. */
  ghost predicate LowestFree(c: seq<Buffer>, id: int) {
    forall k: nat :: k < |c| && k < id ==> c[k].name != ""
  }

  /** Slot `id` was free; now it is a buffer with the name, the owner, an empty queue and no connections. */
  ghost predicate Made(c: seq<Buffer>, c': seq<Buffer>, id: int, name: string, pid: int)
    requires BuffersOk(c')
  {
    && Replaced(c, c', id) && !LiveIn(c, id) && OwnedIn(c', id, pid)
    && c'[id].name == name && Waiting(c', id) == [] && c'[id].conns == NO_CONNS
  }

  lemma MadeWith(c: seq<Buffer>, c1: seq<Buffer>, c2: seq<Buffer>, id: int, name: string, pid: int)
    requires BuffersOk(c1) && BuffersOk(c2) && Made(c, c1, id, name, pid) && |c2| == |c1|
    requires c2 == c1[id := c1[id].(addr := c2[id].addr, size := c2[id].size)]
    ensures Made(c, c2, id, name, pid)
  {}

  /** Slot `id`, the lowest free one, got its name; nothing else changed, but for blank slots at the end. */
  ghost predicate Named(c: seq<Buffer>, c': seq<Buffer>, id: int, name: string) {
    && Replaced(c, c', id) && c'[id] == (if id < |c| then c[id] else BLANK).(name := name)
    && (forall k: nat :: k < |c| && k < id ==> c[k].name != "") && (id < |c| ==> c[id].name == "")
  }

  /** Slot `id` differs from `c`, and there may be blank slots at the end. */
  ghost predicate Replaced(c: seq<Buffer>, c': seq<Buffer>, id: int) {
    0 <= id < |c'| && |c| <= |c'| && forall k :: 0 <= k < |c'| && k != id ==> c'[k] == if k < |c| then c[k] else BLANK
  }

  lemma ReplacedOk(c: seq<Buffer>, c': seq<Buffer>, id: int)
    requires BuffersOk(c) && Replaced(c, c', id) && BufferOk(c'[id])
    ensures BuffersOk(c')
  {
    forall k | 0 <= k < |c'|
      ensures BufferOkAt(c', k)
    {
      if k < |c| { assert BufferOkAt(c, k); }
    }
  }

  lemma GrownOk(c: seq<Buffer>, c': seq<Buffer>)
    requires BuffersOk(c) && |c| <= |c'| && forall k :: 0 <= k < |c'| ==> c'[k] == if k < |c| then c[k] else BLANK
    ensures BuffersOk(c')
  {
    forall k | 0 <= k < |c'|
      ensures BufferOkAt(c', k)
    {
      if k < |c| { assert BufferOkAt(c, k); }
    }
  }

  /** The task that is woken, and whether the sender then waits for a reply. */
  datatype Sent = NoBuffer | NotConnected | Queued(woken: int, waits: bool) | Full
  datatype Received = NotFound | Asleep | From(sender: int, addr: nat)

  /** Only the queue of buffer `id` has changed, and the registry is as sound as before. */
  ghost predicate OnlyQueue(c: seq<Buffer>, c': seq<Buffer>, id: nat) {
    && Distinct(c') && BuffersOk(c') && LiveIn(c', id) && LiveIn(c, id) && |c'| == |c|
    && c' == WithQueue(c, id, c'[id].queue) && Connected(c', id) == Connected(c, id)
  }

  lemma PopKeeps(c: seq<Buffer>, c': seq<Buffer>, id: nat, sender: int)
    requires BuffersOk(c) && Distinct(c) && LiveIn(c, id) && Contiguous(c[id].queue)
    requires var q := c[id].queue;
             && sender == (if MsgbufQueue.Count(q) == 0 then -1 else q.slots[q.pos])
             && c' == if sender == -1 then c else WithQueue(c, id, Popped(q))
    ensures OnlyQueue(c, c', id)
    ensures Waiting(c, id) == (if sender == -1 then [] else [sender]) + Waiting(c', id)
    ensures sender == -1 ==> Waiting(c', id) == []
  {
    var q := c[id].queue;
    assert At(q, 0) == q.slots[q.pos];
    if sender != -1 {
      PopFifo(q);
      WithQueueKeeps(c, id, Popped(q));
    }
  }

  lemma PushKeeps(c: seq<Buffer>, c': seq<Buffer>, id: nat, sender: int, ok: bool)
    requires BuffersOk(c) && Distinct(c) && LiveIn(c, id) && Contiguous(c[id].queue) && sender != -1
    requires var q := c[id].queue;
             ok == (MsgbufQueue.Count(q) < QUEUE_SIZE) && c' == if ok then WithQueue(c, id, Pushed(q, sender)) else c
    ensures OnlyQueue(c, c', id)
    ensures ok == (|Waiting(c, id)| != QUEUE_SIZE)
    ensures Waiting(c', id) == Waiting(c, id) + (if ok then [sender] else [])
  {
    if ok {
      PushFifo(c[id].queue, sender);
      WithQueueKeeps(c, id, Pushed(c[id].queue, sender));
    }
  }

  lemma OnlyQueueTrans(c: seq<Buffer>, c1: seq<Buffer>, c2: seq<Buffer>, id: nat)
    requires OnlyQueue(c, c1, id) && OnlyQueue(c1, c2, id)
    ensures OnlyQueue(c, c2, id)
  {}

  lemma SameBuffers(res: Received, f: seq<int>, g: set<int>, c: seq<Buffer>, c1: seq<Buffer>, id: nat, rest: seq<int>)
    requires OnlyQueue(c, c1, id) && Delivered(res, f, g, c1, id, rest)
    ensures Delivered(res, f, g, c, id, rest)
  {}

  /** What `msgbuf_recv` returns, and what it leaves behind. */
  ghost predicate RecvResult(c: seq<Buffer>, c': seq<Buffer>, id: int, pid: int, res: Received)
    requires BuffersOk(c)
  {
    if !OwnedIn(c, id, pid) then res == NotFound && c' == c
    else OnlyQueue(c, c', id) && Delivered(res, Waiting(c, id), Connected(c, id), c, id, Waiting(c', id))
  }

  /** How `msgbuf_send` ends, or goes to sleep, and what it leaves behind. */
  ghost predicate SendResult(c: seq<Buffer>, c': seq<Buffer>, sendId: int, recvId: int, pid: int, noblock: bool, res: Sent)
    requires BuffersOk(c)
  {
    if !OwnedIn(c, sendId, pid) || !LiveIn(c, recvId) then res == NoBuffer && c' == c
    else if ConnFrom(c[sendId].conns, recvId, 0).None? then res == NotConnected && c' == c
    else if |Waiting(c, recvId)| == QUEUE_SIZE then res == Full && c' == c
    else
      && res == Queued(c[recvId].owner, !noblock)
      && OnlyQueue(c, c', recvId) && Waiting(c', recvId) == Waiting(c, recvId) + [sendId]
  }

  /** The first sender in the queue that is live and connected, if there is one, and what is left behind it. */
  ghost predicate Answers(c: seq<Buffer>, c': seq<Buffer>, id: nat, res: Received)
    requires BuffersOk(c) && BuffersOk(c') && LiveIn(c, id) && LiveIn(c', id)
  {
    var f := Waiting(c, id);
    && ((forall k :: 0 <= k < |f| ==> f[k] !in Connected(c, id)) ==> res == Asleep && Waiting(c', id) == [])
    && forall k :: 0 <= k < |f| && f[k] in Connected(c, id) && (forall j :: 0 <= j < k ==> f[j] !in Connected(c, id)) ==>
         res.From? && res.sender == f[k] && Waiting(c', id) == f[k + 1..]
  }

  /** `msgbuf_recv`: only for the owner; the senders that are gone or not connected are passed over, the first other
      one is returned, with the place of its buffer; the caller sleeps if there is none.  No other buffer changes. */
  lemma RecvMeans(c: seq<Buffer>, c': seq<Buffer>, id: int, pid: int, res: Received)
    requires BuffersOk(c) && RecvResult(c, c', id, pid, res)
    ensures !(0 <= id < |c| && c[id].name != "" && c[id].owner == pid) ==> res == NotFound && c' == c
    ensures 0 <= id < |c| && c[id].name != "" && c[id].owner == pid ==>
      && res != NotFound && |c'| == |c| && (forall k :: 0 <= k < |c| && k != id ==> c'[k] == c[k])
      && c'[id].(queue := c[id].queue) == c[id] && BuffersOk(c') && LiveIn(c', id) && LiveIn(c, id) && Answers(c, c', id, res)
      && (res.From? ==> 0 <= res.sender < |c| && Conn(id, res.addr) in c[res.sender].conns)
  {
    if OwnedIn(c, id, pid) {
      var f, g := Waiting(c, id), Connected(c, id);
      var i := FirstGood(f, g);
      forall k | 0 <= k < |f| && f[k] in g && forall j :: 0 <= j < k ==> f[j] !in g
        ensures k == i
      {
      }
    }
  }

  /** `msgbuf_send`: the owner of a live buffer that is connected to a live receiver joins its queue, unless 8 senders
      wait there; nobody else can, and nothing else changes. */
  lemma SendMeans(c: seq<Buffer>, c': seq<Buffer>, sendId: int, recvId: int, pid: int, noblock: bool, res: Sent)
    requires BuffersOk(c) && SendResult(c, c', sendId, recvId, pid, noblock, res)
    ensures res == NoBuffer <==>
      !(0 <= sendId < |c| && c[sendId].name != "" && c[sendId].owner == pid && 0 <= recvId < |c| && c[recvId].name != "")
    ensures res == NotConnected <==>
      res != NoBuffer && forall k :: 0 <= k < |c[sendId].conns| ==> c[sendId].conns[k].id != recvId
    ensures res == Full <==> res != NoBuffer && res != NotConnected && LiveIn(c, recvId) && |Waiting(c, recvId)| == 8
    ensures !res.Queued? ==> c' == c
    ensures res.Queued? ==>
      && res.woken == c[recvId].owner && res.waits == !noblock && |c'| == |c| && BuffersOk(c') && LiveIn(c', recvId)
      && (forall k :: 0 <= k < |c| && k != recvId ==> c'[k] == c[k]) && c'[recvId].(queue := c[recvId].queue) == c[recvId]
      && Waiting(c', recvId) == Waiting(c, recvId) + [sendId]
  {
    if OwnedIn(c, sendId, pid) && LiveIn(c, recvId) {
      var r := ConnFrom(c[sendId].conns, recvId, 0);
      if k :| 0 <= k < |c[sendId].conns| && c[sendId].conns[k].id == recvId { assert r.Some?; }
    }
  }

  lemma SendPushed(c: seq<Buffer>, c': seq<Buffer>, sendId: int, recvId: int, pid: int, noblock: bool, ok: bool)
    requires BuffersOk(c) && OwnedIn(c, sendId, pid) && LiveIn(c, recvId)
    requires ConnFrom(c[sendId].conns, recvId, 0).Some? && OnlyQueue(c, c', recvId)
    requires ok == (|Waiting(c, recvId)| != QUEUE_SIZE) && (!ok ==> c' == c)
    requires Waiting(c', recvId) == Waiting(c, recvId) + (if ok then [sendId] else [])
    ensures SendResult(c, c', sendId, recvId, pid, noblock, if ok then Queued(c'[recvId].owner, !noblock) else Full)
  {}

  /** Where the buffer of sender `s` is, for receiver `id`. */
  predicate BufferAt(c: seq<Buffer>, s: int, id: int, addr: nat) {
    0 <= s < |c| && ConnFrom(c[s].conns, id, 0).Some? && addr == ConnFrom(c[s].conns, id, 0).value.addr
  }

  /** What a receive makes of the queue `f`: the senders outside `g` are dropped from its front, the first other
      one is returned. */
  ghost predicate Delivered(res: Received, f: seq<int>, g: set<int>, c: seq<Buffer>, id: int, rest: seq<int>) {
    var i := FirstGood(f, g);
    if i < |f| then res.From? && res.sender == f[i] && BufferAt(c, f[i], id, res.addr) && rest == f[i + 1..]
    else
      res == Asleep && rest == []
  }

  /** Of `f` the first `d` entries are gone, and they were all dropped. */
  ghost predicate Dropped(f: seq<int>, d: nat, g: set<int>, w: seq<int>) {
    d <= |f| && w == f[d..] && d <= FirstGood(f, g)
  }

  lemma DropOne(f: seq<int>, d: nat, g: set<int>, x: int, w: seq<int>)
    requires Dropped(f, d, g, [x] + w) && x !in g
    ensures Dropped(f, d + 1, g, w)
  {
    assert f[d..][0] == x && f[d..][1..] == f[d + 1..] == w;
    FirstGoodPast(f, g, d);
  }

  lemma DropHit(f: seq<int>, d: nat, g: set<int>, x: int, w: seq<int>, c: seq<Buffer>, id: int, addr: nat)
    requires Dropped(f, d, g, [x] + w) && x in g
    requires BufferAt(c, x, id, addr)
    ensures Delivered(From(x, addr), f, g, c, id, w)
  {
    assert f[d..][0] == x && f[d..][1..] == f[d + 1..] == w;
    FirstGoodIs(f, g, d);
  }

  lemma DropEnd(f: seq<int>, d: nat, g: set<int>, c: seq<Buffer>, id: int)
    requires Dropped(f, d, g, [])
    ensures Delivered(Asleep, f, g, c, id, [])
  {
    assert |f[d..]| == 0;
  }

  lemma {:induction false} FirstGoodIs(f: seq<int>, g: set<int>, d: nat)
    requires d < |f| && d <= FirstGood(f, g) && f[d] in g
    ensures FirstGood(f, g) == d
  {}

  lemma {:induction false} FirstGoodPast(f: seq<int>, g: set<int>, d: nat)
    requires d < |f| && d <= FirstGood(f, g) && f[d] !in g
    ensures d + 1 <= FirstGood(f, g)
  {}
}
