/** What allocating and freeing do to a list of blocks, and what every sequence of them keeps. */
module BuddyHeap {
  import opened Buddy
  import opened BuddyMerge

  // ---------------------------------------------------------------- allocating

  predicate Suits(b: Block, order: nat) { b.available && order <= b.k }

  function FirstFit(bs: seq<Block>, order: nat, i: nat): (j: nat)
    requires i <= |bs|
    ensures i <= j <= |bs| && (j < |bs| ==> Suits(bs[j], order)) && forall m :: i <= m < j ==> !Suits(bs[m], order)
    decreases |bs| - i
  {
    if i == |bs| || Suits(bs[i], order) then i else FirstFit(bs, order, i + 1)
  }

  /** Block `i` split down to `order` and handed out. */
  function Taken(bs: seq<Block>, i: nat, order: nat): seq<Block>
    requires i < |bs| && order <= bs[i].k
  {
    SplitDown(bs, i, order)[i := Block(bs[i].addr, order, false)]
  }

  /** The blocks, what `mmap` still has to give, and the block found (0 for none). */
  datatype Found = Found(blocks: seq<Block>, pages: seq<nat>, addr: nat)

  /** `block_find`: the first block that is large enough, or one from a new page at the end of the list. */
  function Find(bs: seq<Block>, pages: seq<nat>, order: nat): Found
    decreases |pages|
  {
    var i := FirstFit(bs, order, 0);
    if i < |bs| then Found(Taken(bs, i, order), pages, bs[i].addr)
    else if pages == [] then Found(bs, [], 0)
    else Find(Grown(bs, pages[0]), pages[1..], order)
  }

  /** `mmap` gives out pages that are aligned, not null, and not in use. */
  predicate FreshPages(bs: seq<Block>, pages: seq<nat>) {
    && (forall i :: 0 <= i < |pages| ==> pages[i] > 0 && pages[i] % PAGE == 0)
    && (forall i, j :: 0 <= i < j < |pages| ==> pages[i] != pages[j])
    && (forall i, m :: 0 <= i < |pages| && 0 <= m < |bs| ==> OtherPage(bs, m, pages, i))
  }

  predicate OtherPage(bs: seq<Block>, m: nat, pages: seq<nat>, i: nat)
    requires m < |bs| && i < |pages|
  {
    PageOf(bs[m]) != pages[i] / PAGE
  }

  /** A sound heap. */
  predicate Sound(bs: seq<Block>, pages: seq<nat>) {
    Tiled(bs) && FreshPages(bs, pages) && forall i :: 0 <= i < |bs| ==> bs[i].addr > 0
  }

  /** The blocks that are handed out. */
  function Live(bs: seq<Block>): set<Block> {
    set i | 0 <= i < |bs| && !bs[i].available :: bs[i]
  }

  predicate Overlap(b: Block, c: Block) { b.addr < End(c) && c.addr < End(b) }

  /** No two live blocks overlap. */
  lemma LiveApart(bs: seq<Block>, b: Block, c: Block)
    requires Tiled(bs) && b in Live(bs) && c in Live(bs) && b != c
    ensures !Overlap(b, c)
  {
    var i :| 0 <= i < |bs| && !bs[i].available && bs[i] == b;
    var j :| 0 <= j < |bs| && !bs[j].available && bs[j] == c;
    if i < j { InOrder(bs, i, j); } else { InOrder(bs, j, i); }
  }

  /** Which blocks are in use has no part in how they lie. */
  lemma SameTiled(bs: seq<Block>, r: seq<Block>)
    requires Tiled(bs) && |r| == |bs| && forall m :: 0 <= m < |r| ==> r[m].addr == bs[m].addr && r[m].k == bs[m].k
    ensures Tiled(r)
  {
    forall m | 0 <= m < |r|
      ensures FitsAt(r, m)
    {
      assert FitsAt(bs, m);
    }
    forall m | 0 <= m < |r| - 1
      ensures Joined(r, m)
    {
      assert Joined(bs, m);
    }
    forall m, n | 0 <= m < n < |r|
      ensures StartApart(r, m, n)
    {
      assert StartApart(bs, m, n);
    }
  }

  lemma TakenTiled(bs: seq<Block>, i: nat, order: nat)
    requires Tiled(bs) && i < |bs| && MIN_ORDER <= order <= bs[i].k
    ensures Tiled(Taken(bs, i, order))
  {
    SplitDownTiled(bs, i, order);
    var h, r := SplitDown(bs, i, order), Taken(bs, i, order);
    assert h[i] == bs[i].(k := order);
    assert forall m :: 0 <= m < |r| ==> r[m].addr == h[m].addr && r[m].k == h[m].k;
    SameTiled(h, r);
  }

  lemma TakenAt(bs: seq<Block>, i: nat, order: nat)
    requires i < |bs| && order <= bs[i].k
    ensures var r := Taken(bs, i, order); var n := bs[i].k - order;
            && |r| == |bs| + n && r[i] == Block(bs[i].addr, order, false)
            && (forall m :: 0 <= m < i ==> r[m] == bs[m])
            && (forall m :: i < m <= i + n ==> r[m].available)
            && (forall m :: i + n < m < |r| ==> r[m] == bs[m - n])
  {
    var r := Taken(bs, i, order);
    var n := bs[i].k - order;
    forall m | i < m <= i + n
      ensures r[m].available
    {
      assert r[m] == Halves(bs[i].addr, order, bs[i].k)[m - i - 1];
    }
  }

  /** Handing out a block adds that block to the live ones and changes no other. */
  lemma TakenLive(bs: seq<Block>, i: nat, order: nat)
    requires i < |bs| && order <= bs[i].k && bs[i].available
    ensures Live(Taken(bs, i, order)) == Live(bs) + {Block(bs[i].addr, order, false)}
  {
    var r := Taken(bs, i, order);
    var n := bs[i].k - order;
    TakenAt(bs, i, order);
    forall b | b in Live(bs)
      ensures b in Live(r)
    {
      var m :| 0 <= m < |bs| && !bs[m].available && bs[m] == b;
      assert r[if m < i then m else m + n] == b;
    }
    forall b | b in Live(r)
      ensures b in Live(bs) || b == Block(bs[i].addr, order, false)
    {
      var m :| 0 <= m < |r| && !r[m].available && r[m] == b;
      if m < i { assert bs[m] == b; } else if m > i { assert bs[m - n] == b; }
    }
  }

  lemma GrownSound(bs: seq<Block>, pages: seq<nat>)
    requires Sound(bs, pages) && pages != []
    ensures Sound(Grown(bs, pages[0]), pages[1..]) && Live(Grown(bs, pages[0])) == Live(bs)
  {
    var r := Grown(bs, pages[0]);
    forall m | 0 <= m < |bs|
      ensures PageOf(bs[m]) != pages[0] / PAGE
    {
      assert OtherPage(bs, m, pages, 0);
    }
    GrownTiled(bs, pages[0]);
    forall i, m | 0 <= i < |pages| - 1 && 0 <= m < |r|
      ensures OtherPage(r, m, pages[1..], i)
    {
      if m == |bs| {
        assert pages[0] != pages[i + 1];
        assert pages[0] == PAGE * (pages[0] / PAGE) && pages[i + 1] == PAGE * (pages[i + 1] / PAGE);
      } else {
        assert OtherPage(bs, m, pages, i + 1);
      }
    }
    assert forall b :: b in Live(r) ==> b in Live(bs);
    forall b | b in Live(bs)
      ensures b in Live(r)
    {
      var m :| 0 <= m < |bs| && !bs[m].available && bs[m] == b;
      assert r[m] == b;
    }
  }

  lemma HalfPage(b: Block, x: nat)
    requires Fits(b) && x < b.k
    ensures (b.addr + Size(x)) / PAGE == PageOf(b)
  {
    SizeMono(x + 1, b.k);
    InPage(b);
  }

  /** Every block of a split block lies in the same page. */
  lemma TakenPages(bs: seq<Block>, i: nat, order: nat, m: nat) returns (m': nat)
    requires Tiled(bs) && i < |bs| && MIN_ORDER <= order <= bs[i].k && m < |Taken(bs, i, order)|
    ensures m' < |bs| && PageOf(bs[m']) == PageOf(Taken(bs, i, order)[m]) && bs[m'].addr <= Taken(bs, i, order)[m].addr
  {
    var r := Taken(bs, i, order);
    var n := bs[i].k - order;
    if m < i {
      m' := m;
      assert r[m] == bs[m];
    } else if m == i {
      m' := i;
      assert r[m].addr == bs[i].addr;
    } else if m <= i + n {
      m' := i;
      var h := Halves(bs[i].addr, order, bs[i].k);
      assert r[m] == h[m - i - 1];
      assert FitsAt(bs, i);
      HalfPage(bs[i], order + (m - i - 1));
    } else {
      m' := m - n;
      assert r[m] == bs[m - n];
    }
  }

  lemma TakenSound(bs: seq<Block>, pages: seq<nat>, i: nat, order: nat)
    requires Sound(bs, pages) && i < |bs| && MIN_ORDER <= order <= bs[i].k
    ensures Sound(Taken(bs, i, order), pages)
  {
    TakenTiled(bs, i, order);
    var r := Taken(bs, i, order);
    forall m | 0 <= m < |r|
      ensures r[m].addr > 0 && forall p :: 0 <= p < |pages| ==> OtherPage(r, m, pages, p)
    {
      var m' := TakenPages(bs, i, order, m);
      forall p | 0 <= p < |pages|
        ensures OtherPage(r, m, pages, p)
      {
        assert OtherPage(bs, m', pages, p);
      }
    }
  }

  /** What `block_find` promises: a block of exactly the order asked for, in a heap that is still sound, next to
      the blocks that were handed out before.  It fails exactly when nothing fits and `mmap` has nothing left. */
  lemma {:induction false} FindSound(bs: seq<Block>, pages: seq<nat>, order: nat)
    requires Sound(bs, pages) && MIN_ORDER <= order <= MAX_ORDER
    ensures var f := Find(bs, pages, order);
            && Sound(f.blocks, f.pages)
            && (f.addr == 0 <==> pages == [] && FirstFit(bs, order, 0) == |bs|)
            && (f.addr == 0 ==> f.blocks == bs && f.pages == pages)
            && (f.addr != 0 ==> Block(f.addr, order, false) !in Live(bs)
                                && Live(f.blocks) == Live(bs) + {Block(f.addr, order, false)})
            && |pages| <= |f.pages| + 1
    decreases |pages|
  {
    var i := FirstFit(bs, order, 0);
    if i < |bs| {
      TakenSound(bs, pages, i, order);
      TakenLive(bs, i, order);
      NotLive(bs, i, Block(bs[i].addr, order, false));
    } else if pages != [] {
      GrownSound(bs, pages);
      var g := Grown(bs, pages[0]);
      assert Suits(g[|bs|], order);
      FindSound(g, pages[1..], order);
    }
  }

  lemma NotLive(bs: seq<Block>, i: nat, b: Block)
    requires Tiled(bs) && i < |bs| && bs[i].available && b.addr == bs[i].addr
    ensures b !in Live(bs)
  {
    if b in Live(bs) {
      var j :| 0 <= j < |bs| && !bs[j].available && bs[j] == b;
      assert Within(b.addr, bs[i]) && Within(b.addr, bs[j]);
      Apart(bs, i, j, b.addr);
    }
  }

  function AllGrown(bs: seq<Block>, pages: seq<nat>): seq<Block>
    decreases |pages|
  {
    if pages == [] then bs else AllGrown(Grown(bs, pages[0]), pages[1..])
  }

  /** Asked for more than a page, `block_find` takes everything `mmap` has before it fails. */
  lemma {:induction false} FindDrains(bs: seq<Block>, pages: seq<nat>, order: nat)
    requires order > MAX_ORDER && forall i :: 0 <= i < |bs| ==> bs[i].k <= MAX_ORDER
    ensures Find(bs, pages, order) == Found(AllGrown(bs, pages), [], 0)
    decreases |pages|
  {
    if pages != [] { FindDrains(Grown(bs, pages[0]), pages[1..], order); }
  }

  // ---------------------------------------------------------------- sizes (malloc.c)

  type Word64 = n: nat | n < 0x1_0000_0000_0000_0000

  /** The number of bits of `n`. */
  function BitLength(n: nat): nat { if n == 0 then 0 else 1 + BitLength(n / 2) }

  lemma {:induction false} BitLengthSize(n: nat)
    requires n > 0
    ensures BitLength(n) > 0 && Size(BitLength(n) - 1) <= n < Size(BitLength(n))
  {
    if n >= 2 { BitLengthSize(n / 2); }
  }

  /** `actual_size`: the addition is on 64 bits. */
  function Actual(size: Word64): Word64 { (size + HEADER) % 0x1_0000_0000_0000_0000 }

  lemma BitLengthIs(n: nat, k: nat)
    requires Size(k) <= n < Size(k + 1)
    ensures BitLength(n) == k + 1
  {
    BitLengthSize(n);
    var j := BitLength(n);
    if j < k + 1 { SizeMono(j, k); }
    if j > k + 1 { SizeMono(k + 1, j - 1); }
  }

  lemma BitLengthBounds(n: nat, lo: nat, hi: nat)
    requires Size(lo) <= n < Size(hi)
    ensures lo < BitLength(n) <= hi
  {
    BitLengthSize(n);
    var j := BitLength(n);
    if j <= lo { SizeMono(j, lo); }
    if j > hi { SizeMono(hi, j - 1); }
  }

  /** A request passes the size check and gets an order whose block holds it, behind the header, exactly when
      header and request together stay below a page.  At exactly one page the order is 13, and close to 2^64
      the sum wraps around to a small one. */
  lemma OrderFits(size: Word64)
    requires size > 0
    ensures && (size + HEADER < PAGE
                <==> && Actual(size) <= PAGE
                     && MIN_ORDER <= BitLength(Actual(size)) <= MAX_ORDER
                     && size + HEADER <= Size(BitLength(Actual(size))))
    ensures size + HEADER == PAGE ==> BitLength(Actual(size)) == MAX_ORDER + 1
  {
    SmallSizes();
    var a := Actual(size);
    if size + HEADER < PAGE {
      BitLengthBounds(a, 4, MAX_ORDER);
      BitLengthSize(a);
    } else if size + HEADER == PAGE {
      BitLengthIs(a, MAX_ORDER);
    } else if BitLength(a) <= MAX_ORDER {
      SizeMono(BitLength(a), MAX_ORDER);
    }
  }

  lemma SmallSizes()
    ensures Size(4) == 16 && Size(MAX_ORDER) == PAGE && Size(MAX_ORDER + 1) == 2 * PAGE
  {
    Sizes();
  }
}
