/** Freeing on lists of blocks (free.c; block_coalesce and _shrink of _block.c). */
module BuddyFree {
  import opened Options
  import opened Buddy
  import opened BuddyMerge
  import opened BuddyHeap

  // ---------------------------------------------------------------- merging

  /** Does the loop of `block_coalesce` take another turn for block `i`? */
  predicate Turns(bs: seq<Block>, i: nat)
    requires i < |bs|
  {
    var j := BuddyIndex(bs, i);
    bs[i].k < MAX_ORDER && j < |bs| && j != i && bs[j].available
  }

  /** The list after the turn. */
  function Turned(bs: seq<Block>, i: nat): (r: seq<Block>)
    requires i < |bs| && Turns(bs, i)
    ensures |r| < |bs| && Min(i, BuddyIndex(bs, i)) < |r|
  {
    var j := BuddyIndex(bs, i);
    Merged(bs, Min(i, j), Max(i, j))
  }

  /** The list, the place of the block the loop ends with, and whether every buddy that was merged had the order
      of the block it was merged with. */
  datatype Freed = Freed(blocks: seq<Block>, at: nat, matched: bool)

  /** The loop of `block_coalesce` for block `i`. */
  function Coalesce(bs: seq<Block>, i: nat): (f: Freed)
    requires i < |bs|
    ensures f.at < |f.blocks|
    decreases |bs|
  {
    if !Turns(bs, i) then Freed(bs, i, true)
    else
      var j := BuddyIndex(bs, i);
      var f := Coalesce(Turned(bs, i), Min(i, j));
      f.(matched := bs[j].k == bs[i].k && f.matched)
  }

  lemma MergedLive(bs: seq<Block>, lo: nat)
    requires lo + 1 < |bs| && bs[lo].available && bs[lo + 1].available
    ensures Live(Merged(bs, lo, lo + 1)) == Live(bs)
  {
    var r := Merged(bs, lo, lo + 1);
    MergedAt(bs, lo);
    forall b | b in Live(bs)
      ensures b in Live(r)
    {
      var m :| 0 <= m < |bs| && !bs[m].available && bs[m] == b;
      assert r[if m < lo then m else m - 1] == b;
    }
    forall b | b in Live(r)
      ensures b in Live(bs)
    {
      var m :| 0 <= m < |r| && !r[m].available && r[m] == b;
      assert bs[if m < lo then m else m + 1] == b;
    }
  }

  lemma TurnedSound(bs: seq<Block>, pages: seq<nat>, i: nat)
    requires Sound(bs, pages) && i < |bs| && bs[i].available && Turns(bs, i) && bs[BuddyIndex(bs, i)].k == bs[i].k
    ensures Sound(Turned(bs, i), pages) && Live(Turned(bs, i)) == Live(bs)
    ensures Turned(bs, i)[Min(i, BuddyIndex(bs, i))].available
  {
    var lo := Min(i, BuddyIndex(bs, i));
    TurnSound(bs, i);
    SameOrderNext(bs, i);
    MergedLive(bs, lo);
    MergedAt(bs, lo);
    var r := Turned(bs, i);
    forall p, m | 0 <= p < |pages| && 0 <= m < |r|
      ensures OtherPage(r, m, pages, p)
    {
      assert OtherPage(bs, if m <= lo then m else m + 1, pages, p);
    }
  }

  /** Merging keeps the heap sound and the allocations as they are, if all merged buddies match. */
  lemma {:induction false} CoalesceSound(bs: seq<Block>, pages: seq<nat>, i: nat)
    requires Sound(bs, pages) && i < |bs| && bs[i].available && Coalesce(bs, i).matched
    ensures var f := Coalesce(bs, i);
            Sound(f.blocks, pages) && Live(f.blocks) == Live(bs) && f.blocks[f.at].available
    decreases |bs|
  {
    if Turns(bs, i) {
      TurnedSound(bs, pages, i);
      CoalesceSound(Turned(bs, i), pages, Min(i, BuddyIndex(bs, i)));
    }
  }

  /** A matching turn replaces the two buddies by their cell. */
  lemma TurnedMembers(bs: seq<Block>, i: nat, e: Block)
    requires Tiled(bs) && i < |bs| && bs[i].available && Turns(bs, i) && bs[BuddyIndex(bs, i)].k == bs[i].k
    ensures var j := BuddyIndex(bs, i); var lo := Min(i, j); var r := Turned(bs, i);
            && r[lo] == Block(bs[lo].addr, bs[i].k + 1, true)
            && (e in r <==> e == r[lo] || (e in bs && e != bs[i] && e != bs[j]))
  {
    SameOrderNext(bs, i);
    var lo := Min(i, BuddyIndex(bs, i));
    MergedAt(bs, lo);
    var r := Turned(bs, i);
    if m :| 0 <= m < |r| && r[m] == e && m != lo {
      var n := if m < lo then m else m + 1;
      assert bs[n] == e;
      OtherBlock(bs, n, lo);
      OtherBlock(bs, n, lo + 1);
    }
    if m :| 0 <= m < |bs| && bs[m] == e && m != lo && m != lo + 1 {
      assert r[if m < lo then m else m - 1] == e;
    }
  }

  lemma OtherBlock(bs: seq<Block>, i: nat, j: nat)
    requires Tiled(bs) && i < |bs| && j < |bs| && i != j
    ensures bs[i].addr != bs[j].addr
  {
    if i < j { InOrder(bs, i, j); } else { InOrder(bs, j, i); }
  }

  lemma SameBlock(bs: seq<Block>, e: Block, f: Block)
    requires Tiled(bs) && e in bs && f in bs && e.addr == f.addr
    ensures e == f
  {
    var i :| 0 <= i < |bs| && bs[i] == e;
    var j :| 0 <= j < |bs| && bs[j] == f;
    if i != j { OtherBlock(bs, i, j); }
  }

  // ---------------------------------------------------------------- no two free buddies

  /** Two free blocks that make up a cell of the next order. */
  predicate Pair(e: Block, f: Block) {
    e.available && f.available && e.k == f.k < MAX_ORDER && f.addr == BuddyOf(e.addr, e.k)
  }

  ghost predicate NoPairsBut(bs: seq<Block>, z: Block) {
    forall e, f :: e in bs && f in bs && e != z && f != z ==> !Pair(e, f)
  }

  ghost predicate NoPairs(bs: seq<Block>) {
    forall e, f :: e in bs && f in bs ==> !Pair(e, f)
  }

  lemma BuddyBack(a: nat, k: nat)
    requires a % Size(k) == 0
    ensures BuddyOf(BuddyOf(a, k), k) == a
  {
    var c := Cell(a, k);
    BuddyAligned(a, k);
    var d := Cell(BuddyOf(a, k), k);
    if c < d { MultipleGap(c, d, Size(k + 1)); }
    if d < c { MultipleGap(d, c, Size(k + 1)); }
  }

  lemma PairBack(e: Block, f: Block)
    requires Fits(e) && Pair(e, f)
    ensures Pair(f, e)
  {
    BuddyBack(e.addr, e.k);
  }

  lemma MemberFits(bs: seq<Block>, e: Block)
    requires Tiled(bs) && e in bs
    ensures Fits(e)
  {
    var m :| 0 <= m < |bs| && bs[m] == e;
    assert FitsAt(bs, m);
  }

  lemma TurnedPairs(bs: seq<Block>, i: nat)
    requires Tiled(bs) && i < |bs| && bs[i].available && Turns(bs, i) && bs[BuddyIndex(bs, i)].k == bs[i].k
    requires NoPairsBut(bs, bs[i])
    ensures NoPairsBut(Turned(bs, i), Turned(bs, i)[Min(i, BuddyIndex(bs, i))])
  {
    var r := Turned(bs, i);
    var z := r[Min(i, BuddyIndex(bs, i))];
    forall e, f | e in r && f in r && e != z && f != z
      ensures !Pair(e, f)
    {
      TurnedMembers(bs, i, e);
      TurnedMembers(bs, i, f);
    }
  }

  /** A block whose buddy does not start with a free block of its order has no partner. */
  lemma NoTurnNoPair(bs: seq<Block>, i: nat)
    requires Tiled(bs) && i < |bs| && NoPairsBut(bs, bs[i])
    requires bs[i].k < MAX_ORDER ==>
      var j := BuddyIndex(bs, i); j < |bs| && !(bs[j].available && bs[j].k == bs[i].k)
    ensures NoPairs(bs)
  {
    forall e, f | e in bs && f in bs
      ensures !Pair(e, f)
    {
      if Pair(e, f) {
        MemberFits(bs, e);
        PairBack(e, f);
        var g := if e == bs[i] then f else e;
        assert e == bs[i] || f == bs[i];
        SameBlock(bs, g, bs[BuddyIndex(bs, i)]);
      }
    }
  }

  /** Merging leaves no two free buddies, if there were none without the block that is freed. */
  lemma {:induction false} CoalescePairs(bs: seq<Block>, pages: seq<nat>, i: nat)
    requires Sound(bs, pages) && i < |bs| && bs[i].available && Coalesce(bs, i).matched && NoPairsBut(bs, bs[i])
    ensures NoPairs(Coalesce(bs, i).blocks)
    decreases |bs|
  {
    if Turns(bs, i) {
      TurnedSound(bs, pages, i);
      TurnedPairs(bs, i);
      CoalescePairs(Turned(bs, i), pages, Min(i, BuddyIndex(bs, i)));
    } else {
      if bs[i].k < MAX_ORDER { BuddyIsBlock(bs, i); }
      NoTurnNoPair(bs, i);
    }
  }

  lemma GrownPairs(bs: seq<Block>, page: nat)
    requires NoPairs(bs)
    ensures NoPairs(Grown(bs, page))
  {
    assert forall e :: e in Grown(bs, page) ==> e in bs || e == Block(page, MAX_ORDER, true);
  }

  /** A block of the list after block `i` was split and handed out. */
  lemma TakenMember(bs: seq<Block>, i: nat, order: nat, e: Block)
    requires i < |bs| && order <= bs[i].k && e in Taken(bs, i, order)
    ensures e in bs || !e.available || (order <= e.k < bs[i].k && e == Block(bs[i].addr + Size(e.k), e.k, true))
  {
    var r := Taken(bs, i, order);
    var h := Halves(bs[i].addr, order, bs[i].k);
    var m :| 0 <= m < |r| && r[m] == e;
    TakenAt(bs, i, order);
    if m < i {
      assert bs[m] == e;
    } else if i < m <= i + |h| {
      assert e == h[m - i - 1];
    } else if m > i + |h| {
      assert bs[m - |h|] == e;
    }
  }

  /** The other half of a half is in use, or was split further. */
  lemma HalfNoPair(bs: seq<Block>, i: nat, order: nat, e: Block, f: Block)
    requires Tiled(bs) && i < |bs| && MIN_ORDER <= order <= bs[i].k
    requires e in Taken(bs, i, order) && f in Taken(bs, i, order)
    requires order <= e.k < bs[i].k && e == Block(bs[i].addr + Size(e.k), e.k, true)
    ensures !Pair(e, f)
  {
    var r := Taken(bs, i, order);
    assert FitsAt(bs, i);
    BuddyBehind(bs[i], e.k);
    Divides(bs[i].addr, e.k, bs[i].k);
    BuddyBack(bs[i].addr, e.k);
    TakenTiled(bs, i, order);
    TakenAt(bs, i, order);
    if f.addr == bs[i].addr { SameBlock(r, f, r[i]); }
  }

  /** The buddy of a block that was split off a larger one lies behind it. */
  lemma BuddyBehind(b: Block, lo: nat)
    requires Fits(b) && lo < b.k
    ensures BuddyOf(b.addr, lo) == b.addr + Size(lo)
  {
    Divides(b.addr, lo + 1, b.k);
    Divides(b.addr, lo, b.k);
    LowerMultiple(b.addr, lo);
    var c := Cell(b.addr, lo);
  }

  lemma TakenPairs(bs: seq<Block>, i: nat, order: nat)
    requires Tiled(bs) && i < |bs| && MIN_ORDER <= order <= bs[i].k && NoPairs(bs)
    ensures NoPairs(Taken(bs, i, order))
  {
    var r := Taken(bs, i, order);
    TakenTiled(bs, i, order);
    forall e, f | e in r && f in r
      ensures !Pair(e, f)
    {
      if Pair(e, f) {
        MemberFits(r, e);
        PairBack(e, f);
        TakenMember(bs, i, order, e);
        TakenMember(bs, i, order, f);
        if e !in bs { HalfNoPair(bs, i, order, e, f); }
        if f !in bs { HalfNoPair(bs, i, order, f, e); }
      }
    }
  }

  lemma {:induction false} FindPairs(bs: seq<Block>, pages: seq<nat>, order: nat)
    requires Sound(bs, pages) && MIN_ORDER <= order && NoPairs(bs)
    ensures NoPairs(Find(bs, pages, order).blocks)
    decreases |pages|
  {
    var i := FirstFit(bs, order, 0);
    if i < |bs| {
      TakenPairs(bs, i, order);
    } else if pages != [] {
      GrownSound(bs, pages);
      GrownPairs(bs, pages[0]);
      FindPairs(Grown(bs, pages[0]), pages[1..], order);
    }
  }

  // ---------------------------------------------------------------- the condition, before the call

  /** Where the merges for the block of order `k` at `a` end, and whether all buddies match. */
  datatype Climbed = Climbed(start: nat, order: nat, ok: bool)

  /** Level by level: the half next to the block starts with a block in use, and merging ends; or it is one free
      block of the same order; or it starts with a smaller free block, and the merge goes wrong. */
  function Climb(bs: seq<Block>, a: nat, k: nat): Climbed
    decreases MAX_ORDER - k
  {
    var j := IndexOf(bs, BuddyOf(a, k));
    if k >= MAX_ORDER || j == |bs| || !bs[j].available then Climbed(a, k, true)
    else if bs[j].k != k then Climbed(a, k, false)
    else Climb(bs, Min(a, bs[j].addr), k + 1)
  }

  /** The lists differ only within the block of order `k` at `a`. */
  ghost predicate SameOutside(bs: seq<Block>, cs: seq<Block>, a: nat, k: nat) {
    forall e: Block :: !(a <= e.addr < a + Size(k)) ==> (e in bs <==> e in cs)
  }

  lemma SameBuddy(bs: seq<Block>, cs: seq<Block>, i: nat)
    requires Tiled(bs) && Tiled(cs) && i < |cs| && cs[i].k < MAX_ORDER && SameOutside(bs, cs, cs[i].addr, cs[i].k)
    ensures var j, j' := IndexOf(bs, BuddyOf(cs[i].addr, cs[i].k)), BuddyIndex(cs, i);
            j < |bs| && j' < |cs| && j' != i && bs[j] == cs[j']
  {
    assert FitsAt(cs, i);
    BuddyIsBlock(cs, i);
    var b, j' := BuddyOf(cs[i].addr, cs[i].k), BuddyIndex(cs, i);
    var c := Cell(cs[i].addr, cs[i].k);
    assert cs[j'] in bs;
    var m :| 0 <= m < |bs| && bs[m] == cs[j'];
    Apart(bs, m, IndexOf(bs, b), b);
  }

  lemma SameAfterTurn(bs: seq<Block>, cs: seq<Block>, i: nat)
    requires Tiled(cs) && i < |cs| && cs[i].available && Turns(cs, i) && cs[BuddyIndex(cs, i)].k == cs[i].k
    requires SameOutside(bs, cs, cs[i].addr, cs[i].k)
    ensures var j := BuddyIndex(cs, i); SameOutside(bs, Turned(cs, i), Min(cs[i].addr, cs[j].addr), cs[i].k + 1)
    ensures var j := BuddyIndex(cs, i); Turned(cs, i)[Min(i, j)].addr == Min(cs[i].addr, cs[j].addr)
  {
    var j := BuddyIndex(cs, i);
    assert FitsAt(cs, i);
    SameOrderNext(cs, i);
    BuddyIsBlock(cs, i);
    var c := Cell(cs[i].addr, cs[i].k);
    forall e: Block | !(c <= e.addr < c + Size(cs[i].k + 1))
      ensures e in bs <==> e in Turned(cs, i)
    {
      TurnedMembers(cs, i, e);
    }
    TurnedMembers(cs, i, cs[i]);
  }

  predicate Agrees(f: Freed, c: Climbed)
    requires f.at < |f.blocks|
  {
    c.ok == f.matched && (c.ok ==> f.blocks[f.at] == Block(c.start, c.order, true))
  }

  /** `Climb` says of the list before the call how the merges end and whether they match. */
  predicate Foretold(bs: seq<Block>, cs: seq<Block>, i: nat)
    requires i < |cs|
  {
    Agrees(Coalesce(cs, i), Climb(bs, cs[i].addr, cs[i].k))
  }

  lemma ForetoldEnd(bs: seq<Block>, cs: seq<Block>, i: nat)
    requires Tiled(bs) && Tiled(cs) && i < |cs| && cs[i].available && SameOutside(bs, cs, cs[i].addr, cs[i].k)
    requires cs[i].k >= MAX_ORDER || !Turns(cs, i) || cs[BuddyIndex(cs, i)].k != cs[i].k
    ensures Foretold(bs, cs, i)
  {
    if cs[i].k < MAX_ORDER { SameBuddy(bs, cs, i); }
  }

  lemma ForetoldTurn(bs: seq<Block>, cs: seq<Block>, i: nat)
    requires Tiled(bs) && Tiled(cs) && i < |cs| && cs[i].available && SameOutside(bs, cs, cs[i].addr, cs[i].k)
    requires Turns(cs, i) && cs[BuddyIndex(cs, i)].k == cs[i].k
    requires Foretold(bs, Turned(cs, i), Min(i, BuddyIndex(cs, i)))
    ensures Foretold(bs, cs, i)
  {
    CoalesceTurn(cs, i);
    ClimbTurn(bs, cs, i);
    TurnedAt(cs, i);
  }

  lemma TurnedAt(cs: seq<Block>, i: nat)
    requires Tiled(cs) && i < |cs| && cs[i].available && Turns(cs, i) && cs[BuddyIndex(cs, i)].k == cs[i].k
    ensures var j := BuddyIndex(cs, i);
            Turned(cs, i)[Min(i, j)] == Block(Min(cs[i].addr, cs[j].addr), cs[i].k + 1, true)
  {
    assert FitsAt(cs, i);
    BuddyIsBlock(cs, i);
    TurnedMembers(cs, i, cs[i]);
  }

  lemma CoalesceTurn(cs: seq<Block>, i: nat)
    requires i < |cs| && Turns(cs, i) && cs[BuddyIndex(cs, i)].k == cs[i].k
    ensures Coalesce(cs, i) == Coalesce(Turned(cs, i), Min(i, BuddyIndex(cs, i)))
  {}

  lemma ClimbTurn(bs: seq<Block>, cs: seq<Block>, i: nat)
    requires Tiled(bs) && Tiled(cs) && i < |cs| && cs[i].available && SameOutside(bs, cs, cs[i].addr, cs[i].k)
    requires Turns(cs, i) && cs[BuddyIndex(cs, i)].k == cs[i].k
    ensures Climb(bs, cs[i].addr, cs[i].k) == Climb(bs, Min(cs[i].addr, cs[BuddyIndex(cs, i)].addr), cs[i].k + 1)
  {
    SameBuddy(bs, cs, i);
  }

  lemma {:induction false} ClimbIs(bs: seq<Block>, cs: seq<Block>, pages: seq<nat>, i: nat)
    requires Tiled(bs) && Sound(cs, pages) && i < |cs| && cs[i].available
    requires SameOutside(bs, cs, cs[i].addr, cs[i].k)
    ensures Foretold(bs, cs, i)
    decreases |cs|
  {
    if Turns(cs, i) && cs[BuddyIndex(cs, i)].k == cs[i].k {
      ClimbOn(bs, cs, pages, i);
      ClimbIs(bs, Turned(cs, i), pages, Min(i, BuddyIndex(cs, i)));
      ForetoldTurn(bs, cs, i);
    } else {
      ForetoldEnd(bs, cs, i);
    }
  }

  lemma ClimbOn(bs: seq<Block>, cs: seq<Block>, pages: seq<nat>, i: nat)
    requires Sound(cs, pages) && i < |cs| && cs[i].available && SameOutside(bs, cs, cs[i].addr, cs[i].k)
    requires Turns(cs, i) && cs[BuddyIndex(cs, i)].k == cs[i].k
    ensures var r, lo := Turned(cs, i), Min(i, BuddyIndex(cs, i));
            Sound(r, pages) && r[lo].available && SameOutside(bs, r, r[lo].addr, r[lo].k)
  {
    TurnedSound(cs, pages, i);
    SameAfterTurn(bs, cs, i);
    TurnedMembers(cs, i, cs[i]);
  }

  // ---------------------------------------------------------------- unmapping a page

  function LastAddr(bs: seq<Block>, i: nat): nat
    requires i <= |bs|
  {
    if i == 0 then 0 else bs[i - 1].addr
  }

  /** The list without block `m`. */
  function Unlinked(bs: seq<Block>, m: nat): seq<Block>
    requires m < |bs|
  {
    bs[..m] + bs[m + 1..]
  }

  /** Where `mmap` gives out an unmapped page again: as its `turn`-th next page, if it still has that many. */
  function GivenBack(pages: seq<nat>, turn: nat, page: nat): seq<nat> {
    if turn <= |pages| then pages[..turn] + [page] + pages[turn..] else pages
  }

  ghost function PagesOf(bs: seq<Block>): set<nat> { set i | 0 <= i < |bs| :: PageOf(bs[i]) }

  lemma UnlinkedAt(bs: seq<Block>, m: nat)
    requires m < |bs|
    ensures var r := Unlinked(bs, m);
            && |r| == |bs| - 1
            && (forall x :: 0 <= x < m ==> r[x] == bs[x])
            && (forall x :: m <= x < |r| ==> r[x] == bs[x + 1])
  {}

  lemma WholePage(bs: seq<Block>, m: nat)
    requires Tiled(bs) && m < |bs| && bs[m].k == MAX_ORDER
    ensures bs[m].addr % PAGE == 0 && End(bs[m]) % PAGE == 0 && bs[m].addr == PAGE * PageOf(bs[m])
    ensures End(bs[m]) == bs[m].addr + PAGE
    ensures forall x :: 0 <= x < |bs| && x != m ==> PageOf(bs[x]) != PageOf(bs[m])
  {
    Sizes();
    assert FitsAt(bs, m);
    InPage(bs[m]);
    forall x | 0 <= x < |bs| && x != m
      ensures PageOf(bs[x]) != PageOf(bs[m])
    {
      if PageOf(bs[x]) == PageOf(bs[m]) { Apart(bs, x, m, bs[x].addr); }
    }
  }

  lemma UnlinkChain(bs: seq<Block>, m: nat)
    requires Tiled(bs) && 0 < m < |bs| && bs[m].k == MAX_ORDER
    ensures Chain(Unlinked(bs, m))
  {
    var r := Unlinked(bs, m);
    UnlinkedAt(bs, m);
    WholePage(bs, m);
    assert Joined(bs, m - 1);
    assert End(bs[m - 1]) % PAGE == 0;
    forall x | 0 <= x < |r|
      ensures FitsAt(r, x)
    {
      assert FitsAt(bs, if x < m then x else x + 1);
    }
    forall x | 0 <= x < |r| - 1
      ensures Joined(r, x)
    {
      if x < m - 1 { assert Joined(bs, x); }
      else if x == m - 1 { assert Joined(bs, m); }
      else { assert Joined(bs, x + 1); }
    }
  }

  lemma UnlinkTiled(bs: seq<Block>, m: nat)
    requires Tiled(bs) && 0 < m < |bs| && bs[m].k == MAX_ORDER
    ensures Tiled(Unlinked(bs, m))
  {
    UnlinkChain(bs, m);
    UnlinkedAt(bs, m);
    var r := Unlinked(bs, m);
    forall x, y | 0 <= x < y < |r|
      ensures StartApart(r, x, y)
    {
      assert StartApart(bs, if x < m then x else x + 1, if y < m then y else y + 1);
    }
  }

  lemma GivenBackAt(pages: seq<nat>, turn: nat, page: nat, q: nat) returns (o: Option<nat>)
    requires q < |GivenBack(pages, turn, page)|
    ensures o.None? ==> turn <= |pages| && q == turn && GivenBack(pages, turn, page)[q] == page
    ensures o.Some? ==> o.value < |pages| && GivenBack(pages, turn, page)[q] == pages[o.value]
    ensures o.Some? ==> o.value == if turn <= |pages| && q > turn then q - 1 else q
    ensures o.None? <==> turn <= |pages| && q == turn
  {
    o := if turn > |pages| || q < turn then Some(q) else if q == turn then None else Some(q - 1);
  }

  /** The unmapped page is in use no more, so `mmap` may give it out again at any time. */
  lemma UnlinkFresh(bs: seq<Block>, pages: seq<nat>, m: nat, turn: nat)
    requires Sound(bs, pages) && 0 < m < |bs| && bs[m].k == MAX_ORDER
    ensures FreshPages(Unlinked(bs, m), GivenBack(pages, turn, bs[m].addr))
  {
    var r, back := Unlinked(bs, m), GivenBack(pages, turn, bs[m].addr);
    UnlinkedAt(bs, m);
    WholePage(bs, m);
    forall q | 0 <= q < |back|
      ensures back[q] > 0 && back[q] % PAGE == 0
      ensures forall x :: 0 <= x < |r| ==> OtherPage(r, x, back, q)
    {
      var o := GivenBackAt(pages, turn, bs[m].addr, q);
      forall x | 0 <= x < |r|
        ensures OtherPage(r, x, back, q)
      {
        if o.Some? { assert OtherPage(bs, if x < m then x else x + 1, pages, o.value); }
      }
    }
    forall p, q | 0 <= p < q < |back|
      ensures back[p] != back[q]
    {
      var o := GivenBackAt(pages, turn, bs[m].addr, p);
      var o' := GivenBackAt(pages, turn, bs[m].addr, q);
      if o.Some? { assert OtherPage(bs, m, pages, o.value); }
      if o'.Some? { assert OtherPage(bs, m, pages, o'.value); }
    }
  }

  lemma UnlinkLive(bs: seq<Block>, m: nat)
    requires m < |bs| && bs[m].available
    ensures Live(Unlinked(bs, m)) == Live(bs)
  {
    var r := Unlinked(bs, m);
    UnlinkedAt(bs, m);
    forall b | b in Live(bs)
      ensures b in Live(r)
    {
      var x :| 0 <= x < |bs| && !bs[x].available && bs[x] == b;
      assert r[if x < m then x else x - 1] == b;
    }
    forall b | b in Live(r)
      ensures b in Live(bs)
    {
      var x :| 0 <= x < |r| && !r[x].available && r[x] == b;
      assert bs[if x < m then x else x + 1] == b;
    }
  }

  lemma UnlinkPages(bs: seq<Block>, m: nat)
    requires Tiled(bs) && m < |bs| && bs[m].k == MAX_ORDER
    ensures PagesOf(Unlinked(bs, m)) == PagesOf(bs) - {PageOf(bs[m])}
  {
    var r := Unlinked(bs, m);
    UnlinkedAt(bs, m);
    WholePage(bs, m);
    forall p | p in PagesOf(bs) && p != PageOf(bs[m])
      ensures p in PagesOf(r)
    {
      var x :| 0 <= x < |bs| && PageOf(bs[x]) == p;
      assert PageOf(r[if x < m then x else x - 1]) == p;
    }
    forall p | p in PagesOf(r)
      ensures p in PagesOf(bs) && p != PageOf(bs[m])
    {
      var x :| 0 <= x < |r| && PageOf(r[x]) == p;
      assert PageOf(bs[if x < m then x else x + 1]) == p;
    }
  }

  /** Taking a page out of the list. */
  lemma UnlinkSound(bs: seq<Block>, pages: seq<nat>, m: nat, turn: nat)
    requires Sound(bs, pages) && 0 < m < |bs| && bs[m].k == MAX_ORDER && bs[m].available
    ensures Sound(Unlinked(bs, m), GivenBack(pages, turn, bs[m].addr))
    ensures Live(Unlinked(bs, m)) == Live(bs) && PagesOf(Unlinked(bs, m)) == PagesOf(bs) - {PageOf(bs[m])}
    ensures NoPairs(bs) ==> NoPairs(Unlinked(bs, m))
  {
    UnlinkTiled(bs, m);
    UnlinkFresh(bs, pages, m, turn);
    UnlinkLive(bs, m);
    UnlinkPages(bs, m);
    UnlinkedAt(bs, m);
    assert forall e :: e in Unlinked(bs, m) ==> e in bs;
  }

  // ---------------------------------------------------------------- free

  function Released(bs: seq<Block>, i: nat): seq<Block>
    requires i < |bs|
  {
    bs[i := bs[i].(available := true)]
  }

  lemma ReleasedSound(bs: seq<Block>, pages: seq<nat>, i: nat)
    requires Sound(bs, pages) && i < |bs|
    ensures Sound(Released(bs, i), pages)
  {
    var r := Released(bs, i);
    SameTiled(bs, r);
    forall i, m | 0 <= i < |pages| && 0 <= m < |r|
      ensures OtherPage(r, m, pages, i)
    {
      assert OtherPage(bs, m, pages, i);
    }
  }

  lemma ReleasedLive(bs: seq<Block>, i: nat)
    requires Tiled(bs) && i < |bs| && !bs[i].available
    ensures Live(Released(bs, i)) == Live(bs) - {bs[i]}
  {
    var r := Released(bs, i);
    forall b | b in Live(bs) && b != bs[i]
      ensures b in Live(r)
    {
      var m :| 0 <= m < |bs| && !bs[m].available && bs[m] == b;
      assert r[m] == b;
    }
    forall b | b in Live(r)
      ensures b in Live(bs) && b != bs[i]
    {
      var m :| 0 <= m < |r| && !r[m].available && r[m] == b;
      assert bs[m] == b;
      OtherBlock(bs, m, i);
    }
  }

  lemma ReleasedPairs(bs: seq<Block>, i: nat)
    requires i < |bs| && NoPairs(bs)
    ensures NoPairsBut(Released(bs, i), Released(bs, i)[i])
  {
    assert forall e :: e in Released(bs, i) && e != Released(bs, i)[i] ==> e in bs;
  }

  lemma ReleasedOutside(bs: seq<Block>, i: nat)
    requires i < |bs|
    ensures SameOutside(bs, Released(bs, i), bs[i].addr, bs[i].k)
  {
    var r := Released(bs, i);
    forall e: Block | !(bs[i].addr <= e.addr < bs[i].addr + Size(bs[i].k))
      ensures e in bs <==> e in r
    {
      if m :| 0 <= m < |bs| && bs[m] == e { assert r[m] == e; }
      if m :| 0 <= m < |r| && r[m] == e { assert bs[m] == e; }
    }
  }

  /** The loop for the block that is freed. */
  function Freeing(bs: seq<Block>, i: nat): (f: Freed)
    requires i < |bs|
    ensures f.at < |f.blocks|
  {
    Coalesce(Released(bs, i), i)
  }

  /** The block has become a whole page, and not the first one. */
  predicate Shrinks(f: Freed)
    requires f.at < |f.blocks|
  {
    f.blocks[f.at].k == MAX_ORDER && f.at > 0
  }

  function FreedList(bs: seq<Block>, i: nat): seq<Block>
    requires i < |bs|
  {
    var f := Freeing(bs, i);
    if Shrinks(f) then Unlinked(f.blocks, f.at) else f.blocks
  }

  function FreedPages(bs: seq<Block>, pages: seq<nat>, i: nat, turn: nat): seq<nat>
    requires i < |bs|
  {
    var f := Freeing(bs, i);
    if Shrinks(f) then GivenBack(pages, turn, f.blocks[f.at].addr) else pages
  }

  /** What the list still covers. */
  ghost function FreedCover(bs: seq<Block>, i: nat): set<nat>
    requires i < |bs|
  {
    var f := Freeing(bs, i);
    if Shrinks(f) then PagesOf(bs) - {PageOf(f.blocks[f.at])} else PagesOf(bs)
  }

  /** The first blocks of the pages keep the `prev` they got when the page was new. */
  function PrevOf(prevs: map<nat, nat>, a: nat): nat { if a in prevs then prevs[a] else 0 }

  /** The merges end with a whole page that is not the first. */
  predicate Leaves(bs: seq<Block>, c: Climbed)
    requires bs != []
  {
    c.order == MAX_ORDER && c.start != bs[0].addr
  }

  /** When `free` keeps the list sound, told from the list before the call: all buddies match, and a page that is
      unmapped still has the block before it as its `prev`. */
  predicate FreeOk(bs: seq<Block>, prevs: map<nat, nat>, i: nat)
    requires i < |bs|
  {
    var c := Climb(bs, bs[i].addr, bs[i].k);
    && c.ok
    && (Leaves(bs, c) ==> PrevOf(prevs, c.start) == LastAddr(bs, IndexOf(bs, c.start)))
  }

  /** Nothing changed before the block the loop ended with. */
  predicate FrontKept(bs: seq<Block>, f: Freed) {
    && f.at < |f.blocks| && f.at < |bs| && f.blocks[f.at].addr == bs[f.at].addr
    && forall m :: 0 <= m < f.at ==> f.blocks[m] == bs[m]
  }

  lemma {:induction false} CoalesceFront(bs: seq<Block>, i: nat)
    requires i < |bs|
    ensures FrontKept(bs, Coalesce(bs, i)) && Coalesce(bs, i).at <= i
    decreases |bs|
  {
    if Turns(bs, i) {
      var j := BuddyIndex(bs, i);
      var r, lo := Turned(bs, i), Min(i, j);
      CoalesceFront(r, lo);
      FrontBefore(bs, lo, Max(i, j), Coalesce(r, lo));
    }
  }

  lemma FrontBefore(bs: seq<Block>, lo: nat, hi: nat, f: Freed)
    requires lo < hi < |bs| && FrontKept(Merged(bs, lo, hi), f) && f.at <= lo
    ensures FrontKept(bs, f.(matched := true)) && FrontKept(bs, f.(matched := false))
  {
    TurnedFront(bs, lo, hi);
  }

  lemma TurnedFront(bs: seq<Block>, lo: nat, hi: nat)
    requires lo < hi < |bs|
    ensures Merged(bs, lo, hi)[lo].addr == bs[lo].addr
    ensures forall m :: 0 <= m < lo ==> Merged(bs, lo, hi)[m] == bs[m]
  {}

  lemma IndexUnique(h: seq<Block>, j: nat)
    requires Tiled(h) && j < |h|
    ensures IndexOf(h, h[j].addr) == j
  {
    Apart(h, j, IndexOf(h, h[j].addr), h[j].addr);
  }

  lemma FreeingFront(bs: seq<Block>, i: nat)
    requires Tiled(bs) && i < |bs|
    ensures var f := Freeing(bs, i);
            && IndexOf(bs, f.blocks[f.at].addr) == f.at && f.at < |bs| && LastAddr(bs, f.at) == LastAddr(f.blocks, f.at)
            && (f.blocks[f.at].addr != bs[0].addr <==> f.at > 0) && f.blocks[0].addr == bs[0].addr
  {
    var r := Released(bs, i);
    CoalesceFront(r, i);
    var f := Freeing(bs, i);
    assert bs[f.at].addr == r[f.at].addr;
    IndexUnique(bs, f.at);
    if f.at > 0 { OtherBlock(bs, 0, f.at); }
  }

  /** The condition before the call, in terms of what the call does. */
  lemma FreeOkMeans(bs: seq<Block>, pages: seq<nat>, prevs: map<nat, nat>, i: nat)
    requires Sound(bs, pages) && i < |bs|
    ensures var f := Freeing(bs, i);
            FreeOk(bs, prevs, i)
            <==> f.matched && (Shrinks(f) ==> PrevOf(prevs, f.blocks[f.at].addr) == LastAddr(f.blocks, f.at))
  {
    ReleasedSound(bs, pages, i);
    ReleasedOutside(bs, i);
    ClimbIs(bs, Released(bs, i), pages, i);
    FreeingFront(bs, i);
    assert Agrees(Freeing(bs, i), Climb(bs, bs[i].addr, bs[i].k));
  }

  lemma {:induction false} CoalesceCover(bs: seq<Block>, pages: seq<nat>, i: nat)
    requires Sound(bs, pages) && i < |bs| && bs[i].available && Coalesce(bs, i).matched
    ensures PagesOf(Coalesce(bs, i).blocks) == PagesOf(bs)
    decreases |bs|
  {
    if Turns(bs, i) {
      TurnedSound(bs, pages, i);
      TurnedCover(bs, i);
      CoalesceCover(Turned(bs, i), pages, Min(i, BuddyIndex(bs, i)));
    }
  }

  lemma TurnedCover(bs: seq<Block>, i: nat)
    requires Tiled(bs) && i < |bs| && Turns(bs, i) && bs[BuddyIndex(bs, i)].k == bs[i].k
    ensures PagesOf(Turned(bs, i)) == PagesOf(bs)
  {
    SameOrderNext(bs, i);
    BuddyIsBlock(bs, i);
    var r, lo := Turned(bs, i), Min(i, BuddyIndex(bs, i));
    MergedAt(bs, lo);
    forall p | p in PagesOf(bs)
      ensures p in PagesOf(r)
    {
      var x :| 0 <= x < |bs| && PageOf(bs[x]) == p;
      assert PageOf(r[if x <= lo then x else x - 1]) == p;
    }
    forall p | p in PagesOf(r)
      ensures p in PagesOf(bs)
    {
      var x :| 0 <= x < |r| && PageOf(r[x]) == p;
      assert PageOf(bs[if x <= lo then x else x + 1]) == p;
    }
  }

  lemma ReleasedCover(bs: seq<Block>, i: nat)
    requires i < |bs|
    ensures PagesOf(Released(bs, i)) == PagesOf(bs)
  {
    assert forall m :: 0 <= m < |bs| ==> PageOf(Released(bs, i)[m]) == PageOf(bs[m]);
  }

  /** `free` under that condition: the heap stays sound, the block and nothing else is released, and the list covers
      the pages it covered, without the one that was unmapped. */
  lemma FreeSound(bs: seq<Block>, pages: seq<nat>, prevs: map<nat, nat>, i: nat, turn: nat)
    requires Sound(bs, pages) && NoPairs(bs) && i < |bs| && !bs[i].available && FreeOk(bs, prevs, i)
    ensures Sound(FreedList(bs, i), FreedPages(bs, pages, i, turn)) && NoPairs(FreedList(bs, i))
    ensures Live(FreedList(bs, i)) == Live(bs) - {bs[i]} && PagesOf(FreedList(bs, i)) == FreedCover(bs, i)
  {
    var r := Released(bs, i);
    FreeOkMeans(bs, pages, prevs, i);
    ReleasedSound(bs, pages, i);
    ReleasedLive(bs, i);
    ReleasedPairs(bs, i);
    ReleasedCover(bs, i);
    CoalesceSound(r, pages, i);
    CoalescePairs(r, pages, i);
    CoalesceCover(r, pages, i);
    var f := Freeing(bs, i);
    if Shrinks(f) { UnlinkSound(f.blocks, pages, f.at, turn); }
  }
}
