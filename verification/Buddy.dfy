/** The buddy allocator's lists of blocks (_block.c): what a sound list is, and what splitting, growing and
    merging do to it.  Memory comes in pages of 4096 bytes, a block of order `k` has 2^k bytes, and the list
    runs through the blocks of one page after the other. */
module Buddy {

  const MAX_ORDER: nat := 12   // MALLOC_MAX_ORDER
  const MIN_ORDER: nat := 5    // the smallest block that holds a header and one byte
  const PAGE: nat := 4096      // MALLOC_BLOCK_SIZE
  const HEADER: nat := 24      // sizeof(struct block)

  datatype Block = Block(addr: nat, k: nat, available: bool)

  /** 1 << k */
  function Size(k: nat): (s: nat)
    ensures s > 0
  {
    if k == 0 then 1 else 2 * Size(k - 1)
  }

  function End(b: Block): nat { b.addr + Size(b.k) }

  lemma Sizes()
    ensures Size(5) == 32 && Size(6) == 64 && Size(7) == 128 && Size(8) == 256
    ensures Size(9) == 512 && Size(10) == 1024 && Size(11) == 2048 && Size(12) == 4096
  {}

  // ---------------------------------------------------------------- multiples

  lemma Scale(u: nat, d: int)
    ensures d >= 1 ==> u * d >= u
    ensures d <= -1 ==> u * d <= 0 - u
  {
    if d >= 1 { assert u * d == u + u * (d - 1); assert u * (d - 1) >= 0; }
    if d <= -1 { assert u * d == 0 - u - u * (0 - d - 1); assert u * (0 - d - 1) >= 0; }
  }

  lemma ModZero(x: nat, u: nat, q: nat)
    requires u > 0 && x == u * q
    ensures x % u == 0 && x / u == q
  {
    var d := q - x / u;
    assert u * d == u * q - u * (x / u);
    Scale(u, d);
  }

  lemma MultipleGap(x: nat, y: nat, u: nat)
    requires u > 0 && x % u == 0 && y % u == 0 && x < y
    ensures x + u <= y
  {
    var d := y / u - x / u;
    assert y - x == u * (y / u) - u * (x / u) == u * d;
    Scale(u, d);
    Scale(u, d - 1);
    assert u * d == u + u * (d - 1);
  }

  lemma TwiceDivides(x: nat, u: nat)
    requires u > 0 && x % (2 * u) == 0
    ensures x % u == 0
  {
    var p := x / (2 * u);
    assert x == (2 * u) * p == u * (2 * p);
    ModZero(x, u, 2 * p);
  }

  lemma {:induction false} Divides(x: nat, j: nat, k: nat)
    requires j <= k && x % Size(k) == 0
    ensures x % Size(j) == 0
  {
    if j < k {
      TwiceDivides(x, Size(k - 1));
      Divides(x, j, k - 1);
    }
  }

  lemma SizeDivides(j: nat, k: nat)
    requires j <= k
    ensures Size(k) % Size(j) == 0
  {
    ModZero(Size(k), Size(k), 1);
    Divides(Size(k), j, k);
  }

  lemma NextMultiple(c: nat, s: nat)
    requires s > 0 && c % s == 0
    ensures (c + s) % s == 0
  {
    var q := c / s;
    assert c + s == s * q + s == s * (q + 1);
    ModZero(c + s, s, q + 1);
  }

  // ---------------------------------------------------------------- lists of blocks

  /** A block has an order in range and lies on a multiple of its size. */
  predicate Fits(b: Block) { MIN_ORDER <= b.k <= MAX_ORDER && b.addr % Size(b.k) == 0 }

  /** The block after `b` in the list goes on where `b` ends, or starts another page. */
  predicate Follows(b: Block, c: Block) {
    if End(b) % PAGE == 0 then c.addr % PAGE == 0 else c.addr == End(b)
  }

  /** Block `i` and the next. */
  predicate Joined(bs: seq<Block>, i: nat)
    requires i + 1 < |bs|
  {
    Follows(bs[i], bs[i + 1])
  }

  predicate FitsAt(bs: seq<Block>, i: nat)
    requires i < |bs|
  {
    Fits(bs[i])
  }

  /** The list covers page after page, without gaps. */
  predicate Chain(bs: seq<Block>) {
    && (forall i :: 0 <= i < |bs| ==> FitsAt(bs, i))
    && (bs != [] ==> bs[0].addr % PAGE == 0 && End(bs[|bs| - 1]) % PAGE == 0)
    && (forall i :: 0 <= i < |bs| - 1 ==> Joined(bs, i))
  }

  predicate StartApart(bs: seq<Block>, i: nat, j: nat)
    requires i < |bs| && j < |bs|
  {
    bs[i].addr % PAGE == 0 && bs[j].addr % PAGE == 0 ==> bs[i].addr != bs[j].addr
  }

  /** No page occurs twice. */
  predicate OwnPages(bs: seq<Block>) {
    forall i, j :: 0 <= i < j < |bs| ==> StartApart(bs, i, j)
  }

  predicate Tiled(bs: seq<Block>) { Chain(bs) && OwnPages(bs) }

  function PageOf(b: Block): nat { b.addr / PAGE }

  lemma PageEnd(e: nat, q: nat)
    requires PAGE * q < e <= PAGE * q + PAGE
    ensures e % PAGE == 0 <==> e == PAGE * q + PAGE
    ensures e % PAGE != 0 ==> e / PAGE == q
  {}

  /** A block lies within one page. */
  lemma InPage(b: Block)
    requires Fits(b)
    ensures PAGE * PageOf(b) <= b.addr && End(b) <= PAGE * PageOf(b) + PAGE
    ensures End(b) % PAGE == 0 <==> End(b) == PAGE * PageOf(b) + PAGE
    ensures End(b) % PAGE != 0 ==> End(b) / PAGE == PageOf(b)
  {
    var next := PAGE * (PageOf(b) + 1);
    Sizes();
    ModZero(next, PAGE, PageOf(b) + 1);
    Divides(next, b.k, MAX_ORDER);
    MultipleGap(b.addr, next, Size(b.k));
    PageEnd(End(b), PageOf(b));
  }

  /** Blocks `s` to `i` of the list are contiguous. */
  predicate Contiguous(bs: seq<Block>, s: nat, i: nat)
    requires s <= i < |bs|
  {
    forall m :: s <= m < i ==> End(bs[m]) == bs[m + 1].addr
  }

  /** Every block is reached without a gap from the start of its page. */
  lemma {:induction false} Start(bs: seq<Block>, i: nat) returns (s: nat)
    requires Chain(bs) && i < |bs|
    ensures s <= i && bs[s].addr == PAGE * PageOf(bs[i]) && Contiguous(bs, s, i)
  {
    assert FitsAt(bs, i);
    if bs[i].addr % PAGE == 0 {
      s := i;
    } else {
      assert Joined(bs, i - 1) && FitsAt(bs, i - 1);
      InPage(bs[i - 1]);
      s := Start(bs, i - 1);
    }
  }

  lemma {:induction false} ContiguousOrder(bs: seq<Block>, s: nat, i: nat, j: nat)
    requires s <= i < j < |bs| && Contiguous(bs, s, j)
    ensures End(bs[i]) <= bs[j].addr
  {
    if i + 1 < j {
      ContiguousOrder(bs, s, i, j - 1);
    }
  }

  lemma SameStart(bs: seq<Block>, s: nat, t: nat)
    requires OwnPages(bs) && s < |bs| && t < |bs| && bs[s].addr == bs[t].addr && bs[s].addr % PAGE == 0
    ensures s == t
  {
    assert s < t ==> StartApart(bs, s, t);
    assert t < s ==> StartApart(bs, t, s);
  }

  /** Blocks of one page are in order, so no two blocks overlap. */
  lemma InOrder(bs: seq<Block>, i: nat, j: nat)
    requires Tiled(bs) && i < j < |bs|
    ensures PageOf(bs[i]) == PageOf(bs[j]) ==> End(bs[i]) <= bs[j].addr
    ensures End(bs[i]) <= bs[j].addr || End(bs[j]) <= bs[i].addr
  {
    assert FitsAt(bs, i) && FitsAt(bs, j);
    InPage(bs[i]);
    InPage(bs[j]);
    if PageOf(bs[i]) == PageOf(bs[j]) {
      var s := Start(bs, i);
      var t := Start(bs, j);
      SameStart(bs, s, t);
      ContiguousOrder(bs, t, i, j);
    }
  }

  // ---------------------------------------------------------------- coverage

  predicate Within(a: nat, b: Block) { b.addr <= a < End(b) }

  /** Every byte of every page of the list lies in a block. */
  lemma {:induction false} Covered(bs: seq<Block>, s: nat, a: nat) returns (i: nat)
    requires Chain(bs) && s < |bs| && bs[s].addr <= a < PAGE * PageOf(bs[s]) + PAGE
    ensures s <= i < |bs| && Within(a, bs[i]) && PageOf(bs[i]) == PageOf(bs[s])
    decreases |bs| - s
  {
    assert FitsAt(bs, s);
    InPage(bs[s]);
    if a < End(bs[s]) {
      i := s;
    } else {
      if s + 1 == |bs| {
        assert false;
      }
      assert Joined(bs, s);
      i := Covered(bs, s + 1, a);
    }
  }

  // ---------------------------------------------------------------- splitting and growing

  /** The blocks that splitting `a` from order `hi` down to order `lo` leaves behind it. */
  function Halves(a: nat, lo: nat, hi: nat): (r: seq<Block>)
    requires lo <= hi
    ensures |r| == hi - lo
    ensures forall i :: 0 <= i < |r| ==> r[i] == Block(a + Size(lo + i), lo + i, true)
    decreases hi - lo
  {
    if lo == hi then [] else [Block(a + Size(lo), lo, true)] + Halves(a, lo + 1, hi)
  }

  /** Block `i` split down to order `lo`. */
  function SplitDown(bs: seq<Block>, i: nat, lo: nat): seq<Block>
    requires i < |bs| && lo <= bs[i].k
  {
    bs[..i] + [bs[i].(k := lo)] + Halves(bs[i].addr, lo, bs[i].k) + bs[i + 1..]
  }

  lemma HalfFits(b: Block)
    requires Fits(b) && b.k > MIN_ORDER
    ensures Fits(b.(k := b.k - 1)) && Fits(Block(b.addr + Size(b.k - 1), b.k - 1, true))
    ensures b.addr + Size(b.k - 1) + Size(b.k - 1) == End(b)
    ensures (b.addr + Size(b.k - 1)) % PAGE != 0
  {
    var h := Size(b.k - 1);
    TwiceDivides(b.addr, h);
    NextMultiple(b.addr, h);
    if (b.addr + h) % PAGE == 0 {
      Sizes();
      Divides(b.addr + h, b.k, MAX_ORDER);
      MultipleGap(b.addr, b.addr + h, Size(b.k));
    }
  }

  /** One split, as `_split` does it. */
  function Split(bs: seq<Block>, i: nat): seq<Block>
    requires i < |bs| && bs[i].k > 0
  {
    var h := bs[i].k - 1;
    bs[..i] + [bs[i].(k := h), Block(bs[i].addr + Size(h), h, true)] + bs[i + 1..]
  }

  lemma SplitChain(bs: seq<Block>, i: nat)
    requires Chain(bs) && i < |bs| && bs[i].k > MIN_ORDER
    ensures Chain(Split(bs, i))
  {
    var r := Split(bs, i);
    assert FitsAt(bs, i);
    HalfFits(bs[i]);
    assert forall m :: 0 <= m < i ==> r[m] == bs[m];
    assert forall m :: i + 2 <= m < |r| ==> r[m] == bs[m - 1];
    assert r[i].addr == bs[i].addr && End(r[i]) == r[i + 1].addr && End(r[i + 1]) == End(bs[i]);
    forall m | 0 <= m < |r|
      ensures FitsAt(r, m)
    {
      if m < i { assert FitsAt(bs, m); } else if m > i + 1 { assert FitsAt(bs, m - 1); }
    }
    forall m | 0 <= m < |r| - 1
      ensures Joined(r, m)
    {
      if m < i { assert Joined(bs, m); }
      else if m > i { assert Joined(bs, m - 1); }
    }
  }

  lemma SplitTiled(bs: seq<Block>, i: nat)
    requires Tiled(bs) && i < |bs| && bs[i].k > MIN_ORDER
    ensures Tiled(Split(bs, i))
  {
    var r := Split(bs, i);
    SplitChain(bs, i);
    assert FitsAt(bs, i);
    HalfFits(bs[i]);
    forall m, n | 0 <= m < n < |r|
      ensures StartApart(r, m, n)
    {
      if m != i + 1 && n != i + 1 {
        assert StartApart(bs, if m <= i then m else m - 1, if n <= i then n else n - 1);
      }
    }
  }

  lemma Breaks(front: seq<Block>, b: Block, halves: seq<Block>, tail: seq<Block>)
    requires b.k > 0
    ensures var h := front + [b] + halves + tail; var half := Block(b.addr + Size(b.k - 1), b.k - 1, true);
            Split(h, |front|) == front + [b.(k := b.k - 1)] + ([half] + halves) + tail
  {
    var h := front + [b] + halves + tail;
    assert h[..|front|] == front && h[|front|] == b && h[|front| + 1..] == halves + tail;
  }

  lemma SplitDownStep(bs: seq<Block>, i: nat, lo: nat)
    requires i < |bs| && 0 < lo <= bs[i].k
    ensures Split(SplitDown(bs, i, lo), i) == SplitDown(bs, i, lo - 1)
  {
    Breaks(bs[..i], bs[i].(k := lo), Halves(bs[i].addr, lo, bs[i].k), bs[i + 1..]);
  }

  lemma SplitDownOn(bs: seq<Block>, i: nat, lo: nat)
    requires i < |bs| && MIN_ORDER < lo <= bs[i].k && Tiled(SplitDown(bs, i, lo))
    ensures Tiled(SplitDown(bs, i, lo - 1))
  {
    var h := SplitDown(bs, i, lo);
    SplitDownStep(bs, i, lo);
    assert h[i] == bs[i].(k := lo);
    SplitTiled(h, i);
  }

  lemma {:induction false} SplitDownTiled(bs: seq<Block>, i: nat, lo: nat)
    requires Tiled(bs) && i < |bs| && MIN_ORDER <= lo <= bs[i].k
    ensures Tiled(SplitDown(bs, i, lo))
    decreases bs[i].k - lo
  {
    if lo == bs[i].k {
      assert SplitDown(bs, i, lo) == bs;
    } else {
      SplitDownTiled(bs, i, lo + 1);
      SplitDownOn(bs, i, lo + 1);
    }
  }

  /** A page from `mmap` at the end of the list. */
  function Grown(bs: seq<Block>, page: nat): seq<Block> { bs + [Block(page, MAX_ORDER, true)] }

  lemma GrownTiled(bs: seq<Block>, page: nat)
    requires Tiled(bs) && page % PAGE == 0 && forall i :: 0 <= i < |bs| ==> PageOf(bs[i]) != page / PAGE
    ensures Tiled(Grown(bs, page))
  {
    var r := Grown(bs, page);
    Sizes();
    forall m | 0 <= m < |r|
      ensures FitsAt(r, m)
    {
      if m < |bs| { assert FitsAt(bs, m); }
    }
    forall m | 0 <= m < |r| - 1
      ensures Joined(r, m)
    {
      if m + 1 < |bs| { assert Joined(bs, m); }
    }
    forall m, n | 0 <= m < n < |r|
      ensures StartApart(r, m, n)
    {
      if n < |bs| { assert StartApart(bs, m, n); } else { assert PageOf(bs[m]) != page / PAGE; }
    }
  }
}
