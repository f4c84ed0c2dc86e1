/** Two runs of malloc and free, from an empty heap, after which one more `free` of a held pointer leaves no sound list
    behind. */
module BuddyWitness {
  import opened Buddy
  import opened BuddyMerge
  import opened BuddyHeap
  import opened BuddyFree
  import opened BuddyRuns
  import opened BuddyHeaders
  import opened BuddyExact

  // ---------------------------------------------------------------- runs step by step

  ghost predicate Reaches(h: Heap, es: seq<Event>, r: Heap) {
    Inv(h) && IsRun(h, es) && Last(h, es) == r
  }

  ghost predicate Goes(h: Heap, e: Event, r: Heap) {
    Inv(h) && Enabled(h, e) && Step(h, e) == r
  }

  lemma ReachesAfter(h: Heap, es: seq<Event>, k: nat, h1: Heap, r: Heap)
    requires k < |es| && Goes(h, es[k], h1) && Reaches(h1, es[k + 1..], r)
    ensures Reaches(h, es[k..], r)
  {
    StepKeeps(h, es[k]);
    assert es[k..][1..] == es[k + 1..];
  }

  lemma ThreeSteps(a: Heap, b: Heap, c: Heap, d: Heap, r: Heap, es: seq<Event>)
    requires |es| >= 4 && Goes(a, es[0], b) && Goes(b, es[1], c) && Goes(c, es[2], d) && Reaches(d, es[3..], r)
    ensures Reaches(a, es, r)
  {
    ReachesAfter(c, es, 2, d, r);
    ReachesAfter(b, es, 1, c, r);
    ReachesAfter(a, es, 0, b, r);
    assert es[0..] == es;
  }

  lemma OneMore(a: Heap, es: seq<Event>, k: nat, r: Heap)
    requires k + 1 == |es| && Goes(a, es[k], r) && Inv(r)
    ensures Reaches(a, es[k..], r)
  {
    assert Reaches(r, es[k + 1..], r);
    ReachesAfter(a, es, k, r, r);
  }

  // ---------------------------------------------------------------- finding blocks

  const P: nat := 4096
  const M: nat := 6144
  const N: nat := 7168
  const Q: nat := 8192

  const SMALL: Word64 := 700
  const HALF: Word64 := 1500
  const BIG: Word64 := 3000

  lemma OrderOf(size: Word64, k: nat)
    requires 0 < size && size + HEADER < PAGE && Size(k) <= size + HEADER < Size(k + 1)
    ensures size > 0 && Actual(size) <= PAGE && BitLength(Actual(size)) == k + 1
  {
    BitLengthIs(size + HEADER, k);
  }

  /** Block `i` fits and is split once, or not at all. */
  lemma TakenWhole(bs: seq<Block>, i: nat)
    requires i < |bs|
    ensures Taken(bs, i, bs[i].k) == bs[..i] + [Block(bs[i].addr, bs[i].k, false)] + bs[i + 1..]
  {
    var b := bs[i];
    assert SplitDown(bs, i, b.k) == bs[..i] + [b] + bs[i + 1..];
  }

  lemma TakenHalf(bs: seq<Block>, i: nat, k: nat)
    requires i < |bs| && bs[i].k == k + 1
    ensures Taken(bs, i, k)
         == bs[..i] + [Block(bs[i].addr, k, false), Block(bs[i].addr + Size(k), k, true)] + bs[i + 1..]
  {
    var b := bs[i];
    assert Halves(b.addr, k, k + 1) == [Block(b.addr + Size(k), k, true)] + Halves(b.addr, k + 1, k + 1);
    assert SplitDown(bs, i, k) == bs[..i] + [b.(k := k)] + [Block(b.addr + Size(k), k, true)] + bs[i + 1..];
  }

  lemma FindHere(bs: seq<Block>, pages: seq<nat>, order: nat, i: nat, prevs: map<nat, nat>)
    requires i < |bs| && Suits(bs[i], order) && forall m :: 0 <= m < i ==> !Suits(bs[m], order)
    ensures Find(bs, pages, order) == Found(Taken(bs, i, order), pages, bs[i].addr)
    ensures FindPrevs(bs, pages, order, prevs) == prevs
  {
    assert FirstFit(bs, order, 0) == i;
  }

  lemma FindNew(bs: seq<Block>, page: nat, pages: seq<nat>, order: nat, prevs: map<nat, nat>)
    requires order <= MAX_ORDER && forall m :: 0 <= m < |bs| ==> !Suits(bs[m], order)
    ensures Find(bs, [page] + pages, order) == Found(Taken(Grown(bs, page), |bs|, order), pages, page)
    ensures FindPrevs(bs, [page] + pages, order, prevs) == prevs[page := LastAddr(bs, |bs|)]
  {
    assert FirstFit(bs, order, 0) == |bs|;
    assert ([page] + pages)[1..] == pages;
    FindHere(Grown(bs, page), pages, order, |bs|, prevs[page := LastAddr(bs, |bs|)]);
  }

  lemma MallocStep(h: Heap, size: Word64, k: nat, f: Found, prevs: map<nat, nat>, r: Heap)
    requires Inv(h) && 0 < size && size + HEADER < PAGE && Size(k) <= size + HEADER < Size(k + 1)
    requires f == Find(h.blocks, h.pages, k + 1) && prevs == FindPrevs(h.blocks, h.pages, k + 1, h.prevs) && f.addr > 0
    requires r == Heap(f.blocks, f.pages, h.held[f.addr + HEADER := size], prevs)
    ensures Goes(h, Malloc(size), r) && Inv(r)
  {
    OrderOf(size, k);
    StepKeeps(h, Malloc(size));
  }

  lemma FreeStep(h: Heap, i: nat, r: Heap)
    requires Inv(h) && i < |h.blocks| && h.blocks[i].addr + HEADER in h.held
    requires FreeOk(h.blocks, h.prevs, i) && !Shrinks(Freeing(h.blocks, i))
    requires r == Heap(Freeing(h.blocks, i).blocks, h.pages, h.held - {h.blocks[i].addr + HEADER}, h.prevs)
    ensures Goes(h, Free(h.blocks[i].addr + HEADER, 0), r) && Inv(r)
  {
    IndexUnique(h.blocks, i);
    StepKeeps(h, Free(h.blocks[i].addr + HEADER, 0));
  }

  /** The buddy is in use: nothing is merged. */
  lemma FreeStays(h: Heap, i: nat, j: nat, r: Heap)
    requires Inv(h) && i < |h.blocks| && j < |h.blocks| && i != j && h.blocks[i].k < MAX_ORDER
    requires h.blocks[j].addr == BuddyOf(h.blocks[i].addr, h.blocks[i].k) && !h.blocks[j].available
    requires h.blocks[i].addr + HEADER in h.held
    requires r == Heap(Released(h.blocks, i), h.pages, h.held - {h.blocks[i].addr + HEADER}, h.prevs)
    ensures Goes(h, Free(h.blocks[i].addr + HEADER, 0), r) && Inv(r)
  {
    var bs := h.blocks;
    IndexUnique(bs, j);
    ReleasedSound(bs, h.pages, i);
    IndexUnique(Released(bs, i), j);
    assert Freeing(bs, i) == Freed(Released(bs, i), i, true);
    FreeStep(h, i, r);
  }

  /** The buddy is free and of the same order, and the two make up the first page. */
  lemma FreeFills(h: Heap, k: nat, r: Heap)
    requires Inv(h) && |h.blocks| >= 2 && k + 1 == MAX_ORDER && h.blocks[0].k == k
    requires h.blocks[1] == Block(BuddyOf(h.blocks[0].addr, k), k, true) && h.blocks[0].addr < h.blocks[1].addr
    requires h.blocks[0].addr + HEADER in h.held
    requires r == Heap([Block(h.blocks[0].addr, MAX_ORDER, true)] + h.blocks[2..], h.pages,
                       h.held - {h.blocks[0].addr + HEADER}, h.prevs)
    ensures Goes(h, Free(h.blocks[0].addr + HEADER, 0), r) && Inv(r)
  {
    FillsFreeing(h.blocks, h.pages, k);
    FillsOk(h.blocks, h.prevs, k);
    FreeStep(h, 0, r);
  }

  lemma FillsFreeing(bs: seq<Block>, pages: seq<nat>, k: nat)
    requires Sound(bs, pages) && |bs| >= 2 && k + 1 == MAX_ORDER && bs[0].k == k
    requires bs[1] == Block(BuddyOf(bs[0].addr, k), k, true)
    ensures Freeing(bs, 0) == Freed([Block(bs[0].addr, MAX_ORDER, true)] + bs[2..], 0, true)
  {
    var r := Released(bs, 0);
    ReleasedSound(bs, pages, 0);
    IndexUnique(r, 1);
    var t := Turned(r, 0);
    assert t == [Block(bs[0].addr, MAX_ORDER, true)] + bs[2..];
    assert !Turns(t, 0);
    assert Coalesce(t, 0) == Freed(t, 0, true);
  }

  lemma FillsOk(bs: seq<Block>, prevs: map<nat, nat>, k: nat)
    requires Tiled(bs) && |bs| >= 2 && k + 1 == MAX_ORDER && bs[0].k == k
    requires bs[1] == Block(BuddyOf(bs[0].addr, k), k, true) && bs[0].addr < bs[1].addr
    ensures FreeOk(bs, prevs, 0)
  {
    IndexUnique(bs, 1);
    assert Climb(bs, bs[0].addr, k + 1) == Climbed(bs[0].addr, k + 1, true);
  }

  lemma DropSecond(a: nat, b: nat, c: nat, x: Word64, y: Word64, z: Word64)
    requires a != b && b != c
    ensures map[a := x, b := y, c := z] - {b} == map[a := x, c := z]
  {}

  lemma DropFirst(a: nat, b: nat, x: Word64, y: Word64)
    requires a != b
    ensures map[a := x, b := y] - {a} == map[b := y]
  {}

  // ---------------------------------------------------------------- the heaps of the runs

  function Start0(): Heap { Heap([], [P, Q], map[], map[]) }

  function OneHalf(): Heap {
    Heap([Block(P, 11, false), Block(M, 11, true)], [Q], map[P + HEADER := HALF], map[P := 0])
  }

  lemma StartInv()
    ensures Inv(Start0())
  {
    var h := Start0();
    assert Live(h.blocks) == {};
    assert forall p: nat :: PointerOk(h, p);
  }

  lemma FirstHalf()
    ensures Goes(Start0(), Malloc(HALF), OneHalf()) && Inv(OneHalf())
  {
    StartInv();
    Sizes();
    var g := Grown([], P);
    assert g == [Block(P, 12, true)];
    FindNew([], P, [Q], 11, map[]);
    assert [P] + [Q] == [P, Q];
    TakenHalf(g, 0, 11);
    assert Taken(g, 0, 11) == OneHalf().blocks;
    MallocStep(Start0(), HALF, 10, Found(OneHalf().blocks, [Q], P), map[P := 0], OneHalf());
  }

  // ---------------------------------------------------------------- buddies of different orders

  function TwoSmall(last: bool): Heap {
    Heap([Block(P, 11, false), Block(M, 10, false), Block(N, 10, last)], [Q],
         if last then map[P + HEADER := HALF, M + HEADER := SMALL]
         else map[P + HEADER := HALF, M + HEADER := SMALL, N + HEADER := SMALL], map[P := 0])
  }

  function SmallFreed(): Heap {
    Heap([Block(P, 11, false), Block(M, 10, true), Block(N, 10, false)], [Q],
         map[P + HEADER := HALF, N + HEADER := SMALL], map[P := 0])
  }

  lemma FirstSmall()
    requires Inv(OneHalf())
    ensures Goes(OneHalf(), Malloc(SMALL), TwoSmall(true)) && Inv(TwoSmall(true))
  {
    Sizes();
    var h, r := OneHalf(), TwoSmall(true);
    FindHere(h.blocks, h.pages, 10, 1, h.prevs);
    TakenHalf(h.blocks, 1, 10);
    assert Taken(h.blocks, 1, 10) == r.blocks;
    MallocStep(h, SMALL, 9, Found(r.blocks, [Q], M), map[P := 0], r);
  }

  lemma SecondSmall()
    requires Inv(TwoSmall(true))
    ensures Goes(TwoSmall(true), Malloc(SMALL), TwoSmall(false)) && Inv(TwoSmall(false))
  {
    Sizes();
    var h, r := TwoSmall(true), TwoSmall(false);
    FindHere(h.blocks, h.pages, 10, 2, h.prevs);
    TakenWhole(h.blocks, 2);
    assert Taken(h.blocks, 2, 10) == r.blocks;
    MallocStep(h, SMALL, 9, Found(r.blocks, [Q], N), map[P := 0], r);
  }

  lemma BuddyAddrs()
    ensures BuddyOf(M, 10) == N && BuddyOf(P, 11) == M && BuddyOf(M, 11) == P
  {
    Sizes();
    BuddyIs(M, 10);
    BuddyIs(P, 11);
    BuddyBack(P, 11);
  }

  lemma BuddyIs(a: nat, k: nat)
    requires a % Size(k + 1) == 0
    ensures BuddyOf(a, k) == a + Size(k)
  {
    TwiceDivides(a, Size(k));
    LowerMultiple(a, k);
    var c := Cell(a, k);
  }

  lemma FreeSmallIs()
    ensures var h := TwoSmall(false);
            SmallFreed() == Heap(Released(h.blocks, 1), h.pages, h.held - {M + HEADER}, h.prevs)
  {
    DropSecond(P + HEADER, M + HEADER, N + HEADER, HALF, SMALL, SMALL);
  }

  lemma FreeSmall()
    requires Inv(TwoSmall(false))
    ensures Goes(TwoSmall(false), Free(M + HEADER, 0), SmallFreed()) && Inv(SmallFreed())
  {
    BuddyAddrs();
    FreeSmallIs();
    FreeStays(TwoSmall(false), 1, 2, SmallFreed());
  }

  const MIXED_EVENTS: seq<Event> := [Malloc(HALF), Malloc(SMALL), Malloc(SMALL), Free(M + HEADER, 0)]

  /** Three allocations in one page, the second freed: freeing the first now takes the small block at the start of its
      buddy for the whole of it. */
  lemma MixedBuddies()
    ensures Reaches(Start0(), MIXED_EVENTS, SmallFreed())
    ensures P + HEADER in SmallFreed().held && BlockAt(SmallFreed().blocks, P + HEADER) == 0
    ensures forall prevs :: !FreeOk(SmallFreed().blocks, prevs, 0)
  {
    var es := MIXED_EVENTS;
    FirstHalf();
    FirstSmall();
    SecondSmall();
    FreeSmall();
    OneMore(TwoSmall(false), es, 3, SmallFreed());
    ThreeSteps(Start0(), OneHalf(), TwoSmall(true), TwoSmall(false), SmallFreed(), es);
    SmallFreedStuck();
  }

  lemma SmallFreedStuck()
    requires Inv(SmallFreed())
    ensures forall prevs :: !FreeOk(SmallFreed().blocks, prevs, 0)
  {
    BuddyAddrs();
    IndexUnique(SmallFreed().blocks, 1);
    assert Climb(SmallFreed().blocks, P, 11) == Climbed(P, 11, false);
  }

  // ---------------------------------------------------------------- a stale pointer to the block before a page

  function TwoHalves(): Heap {
    Heap([Block(P, 11, false), Block(M, 11, false)], [Q], map[P + HEADER := HALF, M + HEADER := HALF], map[P := 0])
  }

  function TwoPages(second: bool): Heap {
    Heap([Block(P, 11, false), Block(M, 11, !second), Block(Q, 12, false)], [],
         if second then map[P + HEADER := HALF, M + HEADER := HALF, Q + HEADER := BIG]
         else map[P + HEADER := HALF, Q + HEADER := BIG], map[P := 0, Q := M])
  }

  function FirstPageFree(): Heap {
    Heap([Block(P, 12, true), Block(Q, 12, false)], [], map[Q + HEADER := BIG], map[P := 0, Q := M])
  }

  lemma SecondHalf()
    requires Inv(OneHalf())
    ensures Goes(OneHalf(), Malloc(HALF), TwoHalves()) && Inv(TwoHalves())
  {
    Sizes();
    var h, r := OneHalf(), TwoHalves();
    FindHere(h.blocks, h.pages, 11, 1, h.prevs);
    TakenWhole(h.blocks, 1);
    assert Taken(h.blocks, 1, 11) == r.blocks;
    MallocStep(h, HALF, 10, Found(r.blocks, [Q], M), map[P := 0], r);
  }

  lemma SecondPage()
    requires Inv(TwoHalves())
    ensures Goes(TwoHalves(), Malloc(BIG), TwoPages(true)) && Inv(TwoPages(true))
  {
    Sizes();
    var h, r := TwoHalves(), TwoPages(true);
    FindNew(h.blocks, Q, [], 12, h.prevs);
    assert [Q] + [] == [Q];
    var g := Grown(h.blocks, Q);
    TakenWhole(g, 2);
    assert Taken(g, 2, 12) == r.blocks;
    MallocStep(h, BIG, 11, Found(r.blocks, [], Q), map[P := 0, Q := M], r);
  }

  lemma FreeSecondIs()
    ensures var h := TwoPages(true);
            TwoPages(false) == Heap(Released(h.blocks, 1), h.pages, h.held - {M + HEADER}, h.prevs)
  {
    DropSecond(P + HEADER, M + HEADER, Q + HEADER, HALF, HALF, BIG);
  }

  lemma FreeSecond()
    requires Inv(TwoPages(true))
    ensures Goes(TwoPages(true), Free(M + HEADER, 0), TwoPages(false)) && Inv(TwoPages(false))
  {
    BuddyAddrs();
    FreeSecondIs();
    FreeStays(TwoPages(true), 1, 0, TwoPages(false));
  }

  lemma FreeFirstIs()
    ensures var h := TwoPages(false);
            FirstPageFree() == Heap([Block(P, MAX_ORDER, true)] + h.blocks[2..], h.pages, h.held - {P + HEADER}, h.prevs)
  {
    DropFirst(P + HEADER, Q + HEADER, HALF, BIG);
  }

  lemma FreeFirst()
    requires Inv(TwoPages(false))
    ensures Goes(TwoPages(false), Free(P + HEADER, 0), FirstPageFree()) && Inv(FirstPageFree())
  {
    BuddyAddrs();
    FreeFirstIs();
    FreeFills(TwoPages(false), 11, FirstPageFree());
  }

  const STALE_EVENTS: seq<Event> :=
    [Malloc(HALF), Malloc(HALF), Malloc(BIG), Free(M + HEADER, 0), Free(P + HEADER, 0)]

  /** Two halves of a page and a whole page, then the halves freed: the second page still has the second half as its
      `prev`, and freeing it leaves it in the list although it is unmapped. */
  lemma StalePrev()
    ensures Reaches(Start0(), STALE_EVENTS, FirstPageFree())
    ensures Q + HEADER in FirstPageFree().held && BlockAt(FirstPageFree().blocks, Q + HEADER) == 1
    ensures !FreeOk(FirstPageFree().blocks, FirstPageFree().prevs, 1)
  {
    StaleRun();
    StaleNotOk(FirstPageFree().blocks, FirstPageFree().prevs);
  }

  lemma StaleRun()
    ensures Reaches(Start0(), STALE_EVENTS, FirstPageFree())
  {
    var es := STALE_EVENTS;
    FirstHalf();
    SecondHalf();
    SecondPage();
    FreeSecond();
    FreeFirst();
    OneMore(TwoPages(false), es, 4, FirstPageFree());
    ReachesAfter(TwoPages(true), es, 3, TwoPages(false), FirstPageFree());
    ThreeSteps(Start0(), OneHalf(), TwoHalves(), TwoPages(true), FirstPageFree(), es);
  }

  lemma StaleNotOk(bs: seq<Block>, prevs: map<nat, nat>)
    requires Tiled(bs) && |bs| == 2 && bs[1].k == MAX_ORDER && PrevOf(prevs, bs[1].addr) != bs[0].addr
    ensures IndexOf(bs, bs[1].addr) == 1 && !FreeOk(bs, prevs, 1)
  {
    IndexUnique(bs, 1);
    OtherBlock(bs, 0, 1);
    assert Climb(bs, bs[1].addr, MAX_ORDER) == Climbed(bs[1].addr, MAX_ORDER, true);
  }

  lemma LeadsOut(hs: Headers, first: nat, r: seq<Block>)
    requires first > 0 && first in hs && hs[first].next > 0 && hs[first].next !in hs
    ensures !Listed(hs, first, r)
  {
    if Listed(hs, first, r) {
      assert HeaderOk(hs, r, 0);
      ListedAt(hs, first, r, 1);
    }
  }

  /** A whole page whose `prev` is no block before it, freed: the block before still leads to it. */
  lemma WholeFreed(hs: Headers, first: nat, a: nat, b: nat)
    requires a in hs && b in hs && hs[b].k == MAX_ORDER && b != first && hs[b].prev != a && hs[a].next == b
    requires a / PAGE != b / PAGE
    ensures var h := FreeHeaders(hs, first, b); a in h && h[a].next == b && b !in h
  {
    var h := Returned(hs, b);
    assert ClimbHeaders(h, b) == (h, b);
  }

  /** In memory: whatever headers hold that list, after the last `free` the first page leads to the second, which is
      unmapped, and no list is left. */
  lemma StaleLink(hs: Headers)
    requires Listed(hs, P, FirstPageFree().blocks) && PrevsOk(hs, FirstPageFree().prevs, FirstPageFree().blocks)
    ensures Q in hs
    ensures var h := FreeHeaders(hs, P, Q);
            P in h && h[P].next == Q && Q !in h && forall r :: !Listed(h, P, r)
  {
    var bs := FirstPageFree().blocks;
    assert HeaderOk(hs, bs, 0) && HeaderOk(hs, bs, 1) && PrevOk(hs, FirstPageFree().prevs, bs, 1);
    WholeFreed(hs, P, P, Q);
    forall r
      ensures !Listed(FreeHeaders(hs, P, Q), P, r)
    {
      LeadsOut(FreeHeaders(hs, P, Q), P, r);
    }
  }
}
