/** The code of _block.c, malloc.c and free.c: block headers in memory, linked by address. */
module BuddyCode {
  import opened Buddy
  import opened BuddyMerge
  import opened BuddyHeap
  import opened BuddyFree
  import opened BuddyUndo
  import opened BuddyRuns
  import opened BuddyHeaders
  import opened BuddyExact

  /** The headers `_split` leaves behind. */
  function SplitHeaders(headers: Headers, a: nat): Headers
    requires a in headers && headers[a].k > 0
  {
    var h := headers[a].(k := headers[a].k - 1);
    var b := a + Size(h.k);
    headers[a := h.(next := b)][b := Header(true, h.k, a, h.next)]
  }

  lemma SplitListed(headers: Headers, first: nat, bs: seq<Block>, i: nat)
    requires Tiled(bs) && i < |bs| && bs[i].k > MIN_ORDER && Listed(headers, first, bs)
    ensures HeaderOk(headers, bs, i) && Listed(SplitHeaders(headers, bs[i].addr), first, Split(bs, i))
  {
    assert HeaderOk(headers, bs, i);
    var r := Split(bs, i);
    var headers' := SplitHeaders(headers, bs[i].addr);
    SplitTiled(bs, i);
    forall m | 0 <= m < |r|
      ensures HeaderOk(headers', r, m)
    {
      if m != i { OtherBlock(r, m, i); }
      if m != i + 1 { OtherBlock(r, m, i + 1); }
      if m < i {
        assert HeaderOk(headers, bs, m);
      } else if m > i + 1 {
        assert HeaderOk(headers, bs, m - 1);
      }
    }
  }

  lemma SplitPrevs(headers: Headers, first: nat, prevs: map<nat, nat>, bs: seq<Block>, i: nat)
    requires Tiled(bs) && i < |bs| && bs[i].k > MIN_ORDER && Listed(headers, first, bs) && PrevsOk(headers, prevs, bs)
    ensures HeaderOk(headers, bs, i) && PrevsOk(SplitHeaders(headers, bs[i].addr), prevs, Split(bs, i))
  {
    assert HeaderOk(headers, bs, i) && FitsAt(bs, i);
    HalfFits(bs[i]);
    var r := Split(bs, i);
    SplitTiled(bs, i);
    forall m | 0 <= m < |r|
      ensures PrevOk(SplitHeaders(headers, bs[i].addr), prevs, r, m)
    {
      if m != i + 1 {
        OtherBlock(r, m, i + 1);
        assert PrevOk(headers, prevs, bs, if m <= i then m else m - 1);
      }
    }
  }

  /** The headers `_expand` leaves behind. */
  function GrownHeaders(headers: Headers, last: nat, page: nat): Headers
    requires last == 0 || last in headers
  {
    var headers' := headers[page := Header(true, MAX_ORDER, last, 0)];
    if last == 0 then headers' else headers'[last := headers'[last].(next := page)]
  }

  lemma GrownListed(headers: Headers, first: nat, bs: seq<Block>, page: nat)
    requires Listed(headers, first, bs) && Tiled(Grown(bs, page)) && forall i :: 0 <= i < |bs| ==> bs[i].addr > 0
    ensures var last := LastAddr(bs, |bs|);
            && (last == 0 || last in headers)
            && Listed(GrownHeaders(headers, last, page), if last == 0 then page else first, Grown(bs, page))
  {
    var r := Grown(bs, page);
    var last := LastAddr(bs, |bs|);
    if bs != [] { assert HeaderOk(headers, bs, |bs| - 1); }
    var headers' := GrownHeaders(headers, last, page);
    forall m | 0 <= m < |r|
      ensures HeaderOk(headers', r, m)
    {
      if m < |bs| {
        assert HeaderOk(headers, bs, m);
        OtherBlock(r, m, |bs|);
        if m != |bs| - 1 { OtherBlock(r, m, |bs| - 1); }
      } else if bs != [] {
        OtherBlock(r, m, |bs| - 1);
      }
    }
  }

  lemma GrownPrevs(headers: Headers, first: nat, prevs: map<nat, nat>, bs: seq<Block>, page: nat)
    requires Listed(headers, first, bs) && Tiled(Grown(bs, page)) && PrevsOk(headers, prevs, bs)
    requires LastAddr(bs, |bs|) == 0 || LastAddr(bs, |bs|) in headers
    ensures var last := LastAddr(bs, |bs|);
            PrevsOk(GrownHeaders(headers, last, page), prevs[page := last], Grown(bs, page))
  {
    var r, last := Grown(bs, page), LastAddr(bs, |bs|);
    var headers', prevs' := GrownHeaders(headers, last, page), prevs[page := last];
    forall m | 0 <= m < |r|
      ensures PrevOk(headers', prevs', r, m)
    {
      if m < |bs| {
        assert PrevOk(headers, prevs, bs, m);
        OtherBlock(r, m, |bs|);
      } else if bs != [] {
        OtherBlock(r, m, |bs| - 1);
      }
    }
  }

  /** What is known while a block that fits is split. */
  ghost predicate Splitting(bs0: seq<Block>, bs: seq<Block>, i: nat, order: nat) {
    && i <= |bs0| && FirstFit(bs0, order, 0) == FirstFit(bs0, order, i)
    && (bs == bs0
        || (i < |bs0| && i < |bs| && Suits(bs0[i], order) && order <= bs[i].k <= bs0[i].k
            && bs == SplitDown(bs0, i, bs[i].k)))
  }

  /** A block that does not fit is passed. */
  lemma SplittingPast(bs0: seq<Block>, bs: seq<Block>, i: nat, order: nat)
    requires Splitting(bs0, bs, i, order) && i < |bs| && !Suits(bs[i], order)
    ensures i < |bs0| && bs == bs0 && Splitting(bs0, bs, i + 1, order)
  {
    SplittingAt(bs0, bs, i, order);
  }

  lemma SplittingOn(bs0: seq<Block>, bs: seq<Block>, i: nat, order: nat)
    requires Splitting(bs0, bs, i, order) && i < |bs| && bs[i].available && bs[i].k > order
    ensures i < |bs0| && Suits(bs0[i], order) && Splitting(bs0, Split(bs, i), i, order)
  {
    var k := bs[i].k;
    if bs == bs0 { SplitNothing(bs0, i); }
    SplitDownStep(bs0, i, k);
  }

  lemma SplittingAt(bs0: seq<Block>, bs: seq<Block>, i: nat, order: nat)
    requires Splitting(bs0, bs, i, order) && i <= |bs|
    ensures i == |bs| ==> bs == bs0
    ensures i < |bs| ==> i < |bs0| && bs[i].addr == bs0[i].addr && (bs == bs0 || Suits(bs[i], order))
  {
    if bs != bs0 { assert bs[i] == bs0[i].(k := bs[i].k); }
  }

  /** The headers after block `i` was handed out. */
  lemma TakenListed(headers: Headers, first: nat, prevs: map<nat, nat>, bs: seq<Block>, i: nat)
    requires Tiled(bs) && i < |bs| && Listed(headers, first, bs) && PrevsOk(headers, prevs, bs)
    ensures bs[i].addr in headers && headers[bs[i].addr].available == bs[i].available
    ensures var headers' := headers[bs[i].addr := headers[bs[i].addr].(available := false)];
            var r := bs[i := bs[i].(available := false)];
            Listed(headers', first, r) && PrevsOk(headers', prevs, r)
  {
    assert HeaderOk(headers, bs, i);
    var headers' := headers[bs[i].addr := headers[bs[i].addr].(available := false)];
    var r := bs[i := bs[i].(available := false)];
    forall m | 0 <= m < |r|
      ensures HeaderOk(headers', r, m) && PrevOk(headers', prevs, r, m)
    {
      assert HeaderOk(headers, bs, m) && PrevOk(headers, prevs, bs, m);
      if m != i { OtherBlock(bs, m, i); }
    }
  }

  lemma TakenFound(bs0: seq<Block>, bs: seq<Block>, pages: seq<nat>, i: nat, order: nat)
    requires Splitting(bs0, bs, i, order) && i < |bs| && bs[i].k == order && bs[i].available
    ensures i < |bs0| && order <= bs0[i].k && bs[i := bs[i].(available := false)] == Taken(bs0, i, order)
    ensures Found(Taken(bs0, i, order), pages, bs[i].addr) == Find(bs0, pages, order)
  {
    if bs == bs0 { SplitNothing(bs0, i); }
    assert SplitDown(bs0, i, order)[i] == bs0[i].(k := order);
  }

  lemma EnoughOrder(size: Word64)
    requires 0 < size && size + HEADER <= PAGE
    ensures Actual(size) == size + HEADER && BitLength(size + HEADER) >= MIN_ORDER
  {
    SmallSizes();
    BitLengthBounds(size + HEADER, 4, MAX_ORDER + 1);
  }

  class Allocator {
    var headers: Headers
    var firstBlock: nat
    /** What `mmap` will give out next; when it is empty, `mmap` fails. */
    var pages: seq<nat>
    ghost var blocks: seq<Block>
    /** `prev` in the first headers of pages. */
    ghost var prevs: map<nat, nat>

    constructor (pages: seq<nat>)
      requires Sound([], pages)
      ensures Valid() && blocks == [] && this.pages == pages && prevs == map[]
    {
      headers, firstBlock, this.pages, blocks, prevs := map[], 0, pages, [], map[];
    }

    ghost predicate Valid()
      reads this
    {
      Sound(blocks, pages) && NoPairs(blocks) && Linked()
    }

    ghost predicate Linked()
      reads this
    {
      Tiled(blocks) && Listed(headers, firstBlock, blocks) && PrevsOk(headers, prevs, blocks)
    }

    /** `_split` */
    method SplitBlock(a: nat, ghost i: nat)
      requires Linked() && i < |blocks| && blocks[i].addr == a && blocks[i].k > MIN_ORDER
      modifies this`headers, this`blocks
      ensures blocks == Split(old(blocks), i) && Linked()
    {
      SplitListed(headers, firstBlock, blocks, i);
      SplitPrevs(headers, firstBlock, prevs, blocks, i);
      SplitTiled(blocks, i);
      headers := headers[a := headers[a].(k := headers[a].k - 1)];
      var newBlock := a + Size(headers[a].k);
      headers := headers[newBlock := Header(true, headers[a].k, a, headers[a].next)][a := headers[a].(next := newBlock)];
      assert headers == SplitHeaders(old(headers), a);
      blocks := Split(blocks, i);
    }

    /** `_expand`; it returns 1 when `mmap` fails. */
    method Expand(last: nat) returns (err: nat)
      requires Valid() && last == LastAddr(blocks, |blocks|)
      modifies this
      ensures Valid()
      ensures err == 0 <==> old(pages) != []
      ensures err == 0 ==>
        && blocks == Grown(old(blocks), old(pages)[0]) && pages == old(pages)[1..]
        && prevs == old(prevs)[old(pages)[0] := last]
      ensures err != 0 ==> blocks == old(blocks) && pages == [] && prevs == old(prevs)
    {
      if pages == [] { return 1; }
      GrownSound(blocks, pages);
      GrownPairs(blocks, pages[0]);
      GrownListed(headers, firstBlock, blocks, pages[0]);
      GrownPrevs(headers, firstBlock, prevs, blocks, pages[0]);
      var newBlock := pages[0];
      pages := pages[1..];
      headers := headers[newBlock := Header(true, MAX_ORDER, last, 0)];
      if last != 0 {
        headers := headers[last := headers[last].(next := newBlock)];
      } else {
        firstBlock := newBlock;
      }
      blocks, prevs := Grown(blocks, newBlock), prevs[newBlock := last];
      return 0;
    }

    method SplitStep(ghost bs0: seq<Block>, a: nat, ghost i: nat, order: nat)
      requires Linked() && order >= MIN_ORDER
      requires Splitting(bs0, blocks, i, order) && i < |blocks| && blocks[i].addr == a
      requires blocks[i].available && blocks[i].k > order
      modifies this`headers, this`blocks
      ensures Linked() && Splitting(bs0, blocks, i, order)
      ensures i < |blocks| && i < |bs0| && blocks[i].addr == a && blocks[i].k == old(blocks[i].k) - 1
      ensures LastAddr(blocks, i) == LastAddr(old(blocks), i)
    {
      SplittingOn(bs0, blocks, i, order);
      SplitBlock(a, i);
    }

    /** The loop of `block_find`: the block it returns, or 0 and the last block of the list. */
    method Scan(order: nat) returns (addr: nat, last: nat)
      requires Valid() && order >= MIN_ORDER
      modifies this`headers, this`blocks
      ensures Valid()
      ensures addr != 0 ==> Found(blocks, pages, addr) == Find(old(blocks), pages, order)
                            && FirstFit(old(blocks), order, 0) < |old(blocks)|
      ensures addr == 0 ==> blocks == old(blocks) && last == LastAddr(blocks, |blocks|)
                            && FirstFit(blocks, order, 0) == |blocks|
    {
      var current := firstBlock;
      last := 0;
      ghost var i: nat, bs0 := 0, blocks;
      while current != 0
        invariant Linked() && Sound(bs0, pages) && NoPairs(bs0)
        invariant i <= |blocks| && current == AddrAt(blocks, i) && last == LastAddr(blocks, i)
        invariant Splitting(bs0, blocks, i, order)
        decreases |bs0| - i, if i < |blocks| then blocks[i].k else 0
      {
        assert HeaderOk(headers, blocks, i) && FitsAt(blocks, i);
        if !headers[current].available || headers[current].k < order {
          last := current;
          current := headers[current].next;
          SplittingPast(bs0, blocks, i, order);
          i := i + 1;
        } else if headers[current].k > order {
          SplitStep(bs0, current, i, order);
        } else {
          TakeBlock(bs0, current, i, order);
          return current, last;
        }
      }
      SplittingAt(bs0, blocks, i, order);
      return 0, last;
    }

    /** The block that was found is handed out. */
    method TakeBlock(ghost bs0: seq<Block>, a: nat, ghost i: nat, order: nat)
      requires Linked() && Sound(bs0, pages) && NoPairs(bs0) && order >= MIN_ORDER
      requires i < |blocks| && blocks[i].addr == a && blocks[i].k == order && blocks[i].available
      requires Splitting(bs0, blocks, i, order)
      modifies this`headers, this`blocks
      ensures Valid() && Found(blocks, pages, a) == Find(bs0, pages, order) && FirstFit(bs0, order, 0) < |bs0|
    {
      TakenListed(headers, firstBlock, prevs, blocks, i);
      TakenFound(bs0, blocks, pages, i, order);
      TakenSound(bs0, pages, i, order);
      TakenPairs(bs0, i, order);
      headers := headers[a := headers[a].(available := false)];
      blocks := blocks[i := blocks[i].(available := false)];
    }

    /** `block_find` */
    method BlockFind(order: nat) returns (addr: nat)
      requires Valid() && order >= MIN_ORDER
      modifies this
      ensures Found(blocks, pages, addr) == Find(old(blocks), old(pages), order)
      ensures prevs == FindPrevs(old(blocks), old(pages), order, old(prevs))
      ensures Valid()
      decreases |pages|
    {
      var last;
      addr, last := Scan(order);
      if addr != 0 { return; }
      var err := Expand(last);
      if err == 0 {
        addr := BlockFind(order);
        return;
      }
      return 0;
    }

    /** The shift loop of `malloc`. */
    static method Order(size: nat) returns (j: nat)
      ensures j == BitLength(size)
    {
      var actual := size;
      j := 0;
      while actual != 0
        invariant 0 <= actual && j + BitLength(actual) == BitLength(size)
      {
        actual := actual / 2;
        j := j + 1;
      }
    }

    /** `malloc`, for sizes whose sum with the header does not wrap around. */
    method Malloc(size: Word64) returns (ptr: nat)
      requires Valid() && size + HEADER < 0x1_0000_0000_0000_0000
      modifies this
      ensures Valid()
      ensures ptr == 0 || ptr >= HEADER
      ensures (Found(blocks, pages, if ptr == 0 then 0 else ptr - HEADER), ptr)
              == MallocFrom(old(blocks), old(pages), size)
      ensures prevs == MallocPrevs(old(blocks), old(pages), size, old(prevs))
    {
      if size == 0 { return 0; }
      if size + HEADER > PAGE { return 0; }
      var j := Order(size + HEADER);
      EnoughOrder(size);
      assert Actual(size) == size + HEADER && j == BitLength(Actual(size));
      var block := BlockFind(j);
      assert Found(blocks, pages, block) == Find(old(blocks), old(pages), BitLength(Actual(size)));
      if block == 0 { return 0; }
      return block + HEADER;
    }

    /** The `available` flag in the header at `a`. */
    function Peek(a: nat): bool
      reads this
    {
      Available(headers, a)
    }

    /** The body of the loop of `block_coalesce`. */
    method Merge(a: nat, buddy: nat) returns (b: nat)
      requires a in headers && buddy in headers
      modifies this`headers
      ensures b == Min(a, buddy) && headers == MergeHeaders(old(headers), Min(a, buddy), Max(a, buddy))
    {
      b := a;
      var other := buddy;
      if other < b {
        b, other := other, b;
      }
      headers := headers[b := headers[b].(k := headers[b].k + 1)];
      headers := headers[b := headers[b].(next := headers[other].next)];
    }

    /** `_shrink`.  The page may be given out again by `mmap`, as its `turn`-th next one. */
    method Shrink(block: nat, turn: nat)
      requires block in headers
      modifies this`headers, this`pages
      ensures headers == ShrinkHeaders(old(headers), block) && pages == GivenBack(old(pages), turn, block)
    {
      var prev := headers[block].prev;
      if prev != 0 && prev in headers {
        headers := headers[prev := headers[prev].(next := headers[block].next)];
      }
      headers := map x | x in headers && x / PAGE != block / PAGE :: headers[x];
      pages := GivenBack(pages, turn, block);
    }

    /** `block_coalesce` */
    method BlockCoalesce(a: nat, turn: nat)
      requires a in headers
      modifies this`headers, this`pages
      ensures var (h, z) := ClimbHeaders(old(headers), a);
              if h[z].k == MAX_ORDER && z != firstBlock
              then headers == ShrinkHeaders(h, z) && pages == GivenBack(old(pages), turn, z)
              else headers == h && pages == old(pages)
    {
      var block := a;
      var buddy := BuddyOf(block, headers[block].k);
      while buddy != 0 && Peek(buddy) && headers[block].k < MAX_ORDER
        invariant block in headers && buddy == BuddyIn(headers, block) && pages == old(pages)
        invariant ClimbHeaders(headers, block) == ClimbHeaders(old(headers), a)
        decreases block, MAX_ORDER - headers[block].k
      {
        block := Merge(block, buddy);
        buddy := BuddyOf(block, headers[block].k);
      }
      ghost var h := headers;
      assert !Goes(h, block) && ClimbHeaders(old(headers), a) == (h, block);
      if headers[block].k == MAX_ORDER && block != firstBlock {
        Shrink(block, turn);
      }
    }

    /** `free`, of any pointer behind a header.  For a block in use, in a sound heap, the heap stays sound if the list
        is as `FreeOk` says; FreeExact says what there is in memory otherwise. */
    method Free(ptr: nat, turn: nat)
      requires ptr != 0 ==> ptr >= HEADER && ptr - HEADER in headers
      modifies this`headers, this`pages, this`blocks
      ensures ptr == 0 ==> headers == old(headers) && pages == old(pages) && blocks == old(blocks)
      ensures ptr != 0 ==> headers == FreeHeaders(old(headers), firstBlock, ptr - HEADER)
      ensures ptr != 0 ==>
        pages == if Unmaps(old(headers), firstBlock, ptr - HEADER)
                 then GivenBack(old(pages), turn, ClimbHeaders(Returned(old(headers), ptr - HEADER), ptr - HEADER).1)
                 else old(pages)
      ensures ptr != 0 && old(Valid()) && old(HoldsAt(ptr)) && FreeOk(old(blocks), prevs, old(BlockAt(blocks, ptr))) ==>
        && Valid() && blocks == FreedList(old(blocks), old(BlockAt(blocks, ptr)))
        && pages == FreedPages(old(blocks), old(pages), old(BlockAt(blocks, ptr)), turn)
    {
      if ptr == 0 { return; }
      var block := ptr - HEADER;
      headers := headers[block := headers[block].(available := true)];
      BlockCoalesce(block, turn);
      if old(Valid()) && old(HoldsAt(ptr)) && FreeOk(old(blocks), prevs, old(BlockAt(blocks, ptr))) {
        ghost var i := BlockAt(blocks, ptr);
        FreeSound(blocks, old(pages), prevs, i, turn);
        FreeListed(old(headers), firstBlock, prevs, blocks, old(pages), i);
        FreedPagesAre(old(headers), firstBlock, blocks, old(pages), prevs, i, turn);
        blocks := FreedList(blocks, i);
      }
    }

    /** The pointer belongs to a block in use. */
    ghost predicate HoldsAt(ptr: nat)
      requires ptr != 0 ==> ptr >= HEADER
      reads this
    {
      ptr != 0 && BlockAt(blocks, ptr) < |blocks| && !blocks[BlockAt(blocks, ptr)].available
    }
  }

  lemma FreedPagesAre(headers: Headers, first: nat, bs: seq<Block>, pages: seq<nat>, prevs: map<nat, nat>, i: nat,
                      turn: nat)
    requires Sound(bs, pages) && i < |bs| && !bs[i].available && Listed(headers, first, bs) && FreeOk(bs, prevs, i)
    ensures bs[i].addr in headers
    ensures FreedPages(bs, pages, i, turn) ==
            if Unmaps(headers, first, bs[i].addr)
            then GivenBack(pages, turn, ClimbHeaders(Returned(headers, bs[i].addr), bs[i].addr).1) else pages
  {
    FreeOkMeans(bs, pages, prevs, i);
    FreeingListed(headers, first, bs, pages, i);
  }
}
