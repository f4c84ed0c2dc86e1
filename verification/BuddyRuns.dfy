/** Runs of malloc and free (malloc.c, free.c, _block.c). */
module BuddyRuns {
  import opened Buddy
  import opened BuddyMerge
  import opened BuddyHeap
  import opened BuddyFree

  /** The heap, the pages `mmap` still has, what callers hold (the size they asked for, by address), and the `prev`
      pointers in the headers at the start of pages. */
  datatype Heap = Heap(blocks: seq<Block>, pages: seq<nat>, held: map<nat, Word64>, prevs: map<nat, nat>)

  /** When `free` unmaps a page, `mmap` may give it out again: as its `turn`-th next page, or never. */
  datatype Event = Malloc(size: Word64) | Free(ptr: nat, turn: nat)

  /** The block behind a pointer that was handed out for `size` bytes. */
  function BlockFor(ptr: nat, size: Word64): Block {
    Block(if ptr >= HEADER then ptr - HEADER else 0, BitLength(Actual(size)), false)
  }

  predicate PointerOk(h: Heap, p: nat) {
    p in h.held ==>
      p >= HEADER && 0 < h.held[p] && h.held[p] + HEADER < PAGE && BlockFor(p, h.held[p]) in Live(h.blocks)
  }

  predicate BlockOk(h: Heap, b: Block) {
    b in Live(h.blocks) ==>
      b.addr + HEADER in h.held && b == BlockFor(b.addr + HEADER, h.held[b.addr + HEADER])
  }

  /** Callers hold exactly the live blocks, and each holds what it asked for. */
  ghost predicate HeldOk(h: Heap) {
    (forall p: nat :: PointerOk(h, p)) && (forall b: Block :: BlockOk(h, b))
  }

  ghost predicate Inv(h: Heap) { Sound(h.blocks, h.pages) && NoPairs(h.blocks) && HeldOk(h) }

  /** The `prev` pointers after `block_find`: a new page remembers the block that was the last one. */
  function FindPrevs(bs: seq<Block>, pages: seq<nat>, order: nat, prevs: map<nat, nat>): map<nat, nat>
    decreases |pages|
  {
    if FirstFit(bs, order, 0) < |bs| || pages == [] then prevs
    else FindPrevs(Grown(bs, pages[0]), pages[1..], order, prevs[pages[0] := LastAddr(bs, |bs|)])
  }

  /** `malloc`: what it does to the heap, and the pointer, 0 for a failure. */
  function MallocFrom(bs: seq<Block>, pages: seq<nat>, size: Word64): (Found, nat) {
    if size == 0 || Actual(size) > PAGE then (Found(bs, pages, 0), 0)
    else
      var f := Find(bs, pages, BitLength(Actual(size)));
      (f, if f.addr == 0 then 0 else f.addr + HEADER)
  }

  function BlockAt(bs: seq<Block>, ptr: nat): nat
    requires ptr >= HEADER
  {
    IndexOf(bs, ptr - HEADER)
  }

  function MallocPrevs(bs: seq<Block>, pages: seq<nat>, size: Word64, prevs: map<nat, nat>): map<nat, nat> {
    if size == 0 || Actual(size) > PAGE then prevs else FindPrevs(bs, pages, BitLength(Actual(size)), prevs)
  }

  /** The sum of size and header does not wrap around; pointers are freed that are held, and `free` finds the list as
      it expects it. */
  ghost predicate Enabled(h: Heap, e: Event)
    requires Inv(h)
  {
    match e
    case Malloc(size) => size + HEADER < 0x1_0000_0000_0000_0000
    case Free(ptr, _) =>
      ptr == 0
      || (HEADER <= ptr && ptr in h.held && BlockAt(h.blocks, ptr) < |h.blocks|
          && FreeOk(h.blocks, h.prevs, BlockAt(h.blocks, ptr)))
  }

  ghost function Step(h: Heap, e: Event): Heap
    requires Inv(h) && Enabled(h, e)
  {
    match e
    case Malloc(size) =>
      var (f, ptr) := MallocFrom(h.blocks, h.pages, size);
      Heap(f.blocks, f.pages, if ptr == 0 then h.held else h.held[ptr := size],
           MallocPrevs(h.blocks, h.pages, size, h.prevs))
    case Free(ptr, turn) =>
      if ptr == 0 then h
      else
        var i := BlockAt(h.blocks, ptr);
        Heap(FreedList(h.blocks, i), FreedPages(h.blocks, h.pages, i, turn), h.held - {ptr}, h.prevs)
  }

  lemma {:induction false} AllGrownSound(bs: seq<Block>, pages: seq<nat>)
    requires Sound(bs, pages)
    ensures Sound(AllGrown(bs, pages), []) && Live(AllGrown(bs, pages)) == Live(bs)
    decreases |pages|
  {
    if pages != [] {
      GrownSound(bs, pages);
      AllGrownSound(Grown(bs, pages[0]), pages[1..]);
    }
  }

  /** What a caller of `malloc` gets: a live block of its own that is large enough. */
  predicate GoodBlock(bs: seq<Block>, r: seq<Block>, ptr: nat, size: Word64) {
    && ptr > HEADER && 0 < size && size + HEADER < PAGE && size + HEADER <= Size(BitLength(Actual(size)))
    && BlockFor(ptr, size) !in Live(bs) && Live(r) == Live(bs) + {BlockFor(ptr, size)}
  }

  /** `malloc` for a size below a page less the header: a block, unless nothing fits and `mmap` fails. */
  lemma MallocServes(bs: seq<Block>, pages: seq<nat>, size: Word64, f: Found, ptr: nat)
    requires Sound(bs, pages) && 0 < size && size + HEADER < PAGE && (f, ptr) == MallocFrom(bs, pages, size)
    ensures Sound(f.blocks, f.pages)
    ensures ptr == 0 <==> pages == [] && FirstFit(bs, BitLength(Actual(size)), 0) == |bs|
    ensures ptr == 0 ==> f.blocks == bs && f.pages == pages
    ensures ptr != 0 ==> GoodBlock(bs, f.blocks, ptr, size)
  {
    var order := BitLength(Actual(size));
    SmallFits(size);
    FindSound(bs, pages, order);
    assert f == Find(bs, pages, order);
    assert ptr != 0 ==> BlockFor(ptr, size) == Block(f.addr, order, false);
  }

  lemma SmallFits(size: Word64)
    requires 0 < size && size + HEADER < PAGE
    ensures Actual(size) <= PAGE && MIN_ORDER <= BitLength(Actual(size)) <= MAX_ORDER
    ensures size + HEADER <= Size(BitLength(Actual(size)))
  {
    OrderFits(size);
  }

  lemma PageFits(size: Word64)
    requires size + HEADER == PAGE
    ensures Actual(size) == PAGE && BitLength(Actual(size)) == MAX_ORDER + 1
  {
    OrderFits(size);
  }

  /** A request of exactly a page less the header gets nothing, and leaves `mmap` with nothing; larger ones are
      refused at once. */
  lemma MallocRefuses(bs: seq<Block>, pages: seq<nat>, size: Word64)
    requires Sound(bs, pages) && (size == 0 || PAGE <= size + HEADER < 0x1_0000_0000_0000_0000)
    ensures var (f, ptr) := MallocFrom(bs, pages, size);
            && ptr == 0 && Sound(f.blocks, f.pages) && Live(f.blocks) == Live(bs)
            && f == if size + HEADER == PAGE then Found(AllGrown(bs, pages), [], 0) else Found(bs, pages, 0)
  {
    if size + HEADER == PAGE {
      PageFits(size);
      forall i | 0 <= i < |bs|
        ensures bs[i].k <= MAX_ORDER
      {
        assert FitsAt(bs, i);
      }
      FindDrains(bs, pages, BitLength(Actual(size)));
      AllGrownSound(bs, pages);
    }
  }

  lemma SameLive(h: Heap, h': Heap)
    requires HeldOk(h) && h'.held == h.held && Live(h'.blocks) == Live(h.blocks)
    ensures HeldOk(h')
  {
    forall p: nat
      ensures PointerOk(h', p)
    {
      assert PointerOk(h, p);
    }
    forall b: Block
      ensures BlockOk(h', b)
    {
      assert BlockOk(h, b);
    }
  }

  lemma MallocPairs(bs: seq<Block>, pages: seq<nat>, size: Word64)
    requires Sound(bs, pages) && NoPairs(bs) && size + HEADER < 0x1_0000_0000_0000_0000
    ensures NoPairs(MallocFrom(bs, pages, size).0.blocks)
  {
    if 0 < size && size + HEADER < PAGE {
      SmallFits(size);
      FindPairs(bs, pages, BitLength(Actual(size)));
    } else if size + HEADER == PAGE {
      PageFits(size);
      FindPairs(bs, pages, BitLength(Actual(size)));
    }
  }

  lemma MallocKeeps(h: Heap, size: Word64)
    requires Inv(h) && Enabled(h, Malloc(size))
    ensures Inv(Step(h, Malloc(size)))
  {
    var (f, ptr) := MallocFrom(h.blocks, h.pages, size);
    var h' := Step(h, Malloc(size));
    MallocPairs(h.blocks, h.pages, size);
    if 0 < size && size + HEADER < PAGE {
      MallocServes(h.blocks, h.pages, size, f, ptr);
      if ptr != 0 { GotIsNew(h, ptr, size, f, h'.prevs); } else { SameLive(h, h'); }
    } else {
      MallocRefuses(h.blocks, h.pages, size);
      SameLive(h, h');
    }
  }

  lemma GotIsNew(h: Heap, ptr: nat, size: Word64, f: Found, prevs: map<nat, nat>)
    requires Inv(h) && GoodBlock(h.blocks, f.blocks, ptr, size) && Tiled(f.blocks)
    ensures HeldOk(Heap(f.blocks, f.pages, h.held[ptr := size], prevs))
  {
    var h' := Heap(f.blocks, f.pages, h.held[ptr := size], prevs);
    var c := BlockFor(ptr, size);
    assert PointerOk(h, ptr);
    if ptr in h.held {
      LiveApart(f.blocks, BlockFor(ptr, h.held[ptr]), c);
    }
    forall p: nat
      ensures PointerOk(h', p)
    {
      assert PointerOk(h, p);
    }
    forall b: Block
      ensures BlockOk(h', b)
    {
      assert BlockOk(h, b);
      if b in Live(f.blocks) && b != c { LiveApart(f.blocks, b, c); }
    }
  }

  lemma FreeKeeps(h: Heap, ptr: nat, turn: nat)
    requires Inv(h) && Enabled(h, Free(ptr, turn))
    ensures Inv(Step(h, Free(ptr, turn)))
  {
    if ptr != 0 {
      var i := BlockAt(h.blocks, ptr);
      HeldAt(h, ptr);
      FreeSound(h.blocks, h.pages, h.prevs, i, turn);
      DroppedOk(h, ptr, Step(h, Free(ptr, turn)));
    }
  }

  lemma DroppedOk(h: Heap, ptr: nat, h': Heap)
    requires HeldOk(h) && ptr in h.held && ptr >= HEADER && h'.held == h.held - {ptr}
    requires Live(h'.blocks) == Live(h.blocks) - {BlockFor(ptr, h.held[ptr])}
    ensures HeldOk(h')
  {
    forall p: nat
      ensures PointerOk(h', p)
    {
      assert PointerOk(h, p);
    }
    forall b: Block
      ensures BlockOk(h', b)
    {
      assert BlockOk(h, b);
    }
  }

  /** The block of a held pointer stands in the list where the code finds its header. */
  lemma HeldAt(h: Heap, ptr: nat)
    requires Inv(h) && ptr in h.held && ptr >= HEADER
    ensures var i := BlockAt(h.blocks, ptr); i < |h.blocks| && h.blocks[i] == BlockFor(ptr, h.held[ptr])
  {
    assert PointerOk(h, ptr);
    var b := BlockFor(ptr, h.held[ptr]);
    var m :| 0 <= m < |h.blocks| && !h.blocks[m].available && h.blocks[m] == b;
    var i := BlockAt(h.blocks, ptr);
    Apart(h.blocks, i, m, b.addr);
  }

  // ---------------------------------------------------------------- whole runs

  ghost predicate IsRun(h: Heap, es: seq<Event>)
    requires Inv(h)
    decreases |es|
  {
    es == [] || (Enabled(h, es[0]) && (StepKeeps(h, es[0]); IsRun(Step(h, es[0]), es[1..])))
  }

  lemma StepKeeps(h: Heap, e: Event)
    requires Inv(h) && Enabled(h, e)
    ensures Inv(Step(h, e))
  {
    match e
    case Malloc(size) => MallocKeeps(h, size);
    case Free(ptr, turn) => FreeKeeps(h, ptr, turn);
  }

  ghost function Last(h: Heap, es: seq<Event>): (r: Heap)
    requires Inv(h) && IsRun(h, es)
    ensures Inv(r)
    decreases |es|
  {
    if es == [] then h else (StepKeeps(h, es[0]); Last(Step(h, es[0]), es[1..]))
  }

  /** After every run of malloc and free in which `free` finds the list as it expects it, from any sound heap: the
      memory callers hold does not overlap, neither with other held memory nor with any block's header, and lies within
      pages of the heap. */
  lemma HeldApart(h: Heap, es: seq<Event>, p: nat, q: nat)
    requires Inv(h) && IsRun(h, es)
    ensures var r := Last(h, es);
            && Sound(r.blocks, r.pages)
            && (p in r.held && q in r.held && p != q ==>
                  p + r.held[p] <= q - HEADER || q + r.held[q] <= p - HEADER)
            && (p in r.held ==> p / PAGE == (p + r.held[p] - 1) / PAGE)
  {
    var r := Last(h, es);
    if p in r.held { HeldInBlock(r, p); }
    if p in r.held && q in r.held && p != q {
      HeldInBlock(r, q);
      assert PointerOk(r, p) && PointerOk(r, q);
      LiveApart(r.blocks, BlockFor(p, r.held[p]), BlockFor(q, r.held[q]));
    }
  }

  lemma HeldInBlock(h: Heap, p: nat)
    requires Inv(h) && p in h.held
    ensures var b := BlockFor(p, h.held[p]);
            && b.addr + HEADER == p && p + h.held[p] <= End(b) && p / PAGE == (p + h.held[p] - 1) / PAGE
  {
    var size := h.held[p];
    var b := BlockFor(p, size);
    assert PointerOk(h, p);
    SmallFits(size);
    HeldAt(h, p);
    assert FitsAt(h.blocks, BlockAt(h.blocks, p));
    InPage(b);
    SamePage(p, p + size - 1, PageOf(b));
  }

  lemma SamePage(x: nat, y: nat, q: nat)
    requires PAGE * q <= x < PAGE * q + PAGE && PAGE * q <= y < PAGE * q + PAGE
    ensures x / PAGE == y / PAGE
  {}
}
