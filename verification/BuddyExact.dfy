/** When `free` keeps the list of blocks sound: exactly under the condition of module BuddyFree, which can be read off
    the list before the call. */
module BuddyExact {
  import opened Buddy
  import opened BuddyMerge
  import opened BuddyHeap
  import opened BuddyFree
  import opened BuddyHeaders
  import opened BuddyLost

  // ---------------------------------------------------------------- unmapping a page

  lemma OffPage(bs: seq<Block>, m: nat, x: nat)
    requires Tiled(bs) && m < |bs| && x < |bs| && x != m && bs[m].k == MAX_ORDER
    ensures bs[x].addr / PAGE != bs[m].addr / PAGE
  {
    WholePage(bs, m);
    assert PageOf(bs[x]) != PageOf(bs[m]);
  }

  /** With the right `prev` the page leaves the list. */
  lemma ShrinkListed(hs: Headers, first: nat, bs: seq<Block>, m: nat)
    requires Tiled(bs) && Positive(bs) && Listed(hs, first, bs) && 0 < m < |bs| && bs[m].k == MAX_ORDER
    requires bs[m].addr in hs && hs[bs[m].addr].prev == bs[m - 1].addr
    ensures Listed(ShrinkHeaders(hs, bs[m].addr), first, Unlinked(bs, m))
  {
    var r, hs' := Unlinked(bs, m), ShrinkHeaders(hs, bs[m].addr);
    UnlinkedAt(bs, m);
    assert HeaderOk(hs, bs, m) && HeaderOk(hs, bs, m - 1);
    forall x | 0 <= x < |r|
      ensures HeaderOk(hs', r, x)
    {
      var x' := if x < m then x else x + 1;
      OffPage(bs, m, x');
      assert HeaderOk(hs, bs, x');
      if x' != m - 1 { OtherBlock(bs, x', m - 1); }
    }
  }

  lemma ListedAt(hs: Headers, first: nat, r: seq<Block>, n: nat)
    requires Listed(hs, first, r) && n < |r|
    ensures r[n].addr in hs
  {
    assert HeaderOk(hs, r, n);
  }

  /** With a `prev` that is no block before the page, the list still leads to the page. */
  lemma ShrinkKeepsLink(hs: Headers, first: nat, bs: seq<Block>, m: nat, r: seq<Block>)
    requires Tiled(bs) && Positive(bs) && Listed(hs, first, bs) && 0 < m < |bs| && bs[m].k == MAX_ORDER
    requires bs[m].addr in hs && forall j :: 0 <= j < m ==> hs[bs[m].addr].prev != bs[j].addr
    ensures !Listed(ShrinkHeaders(hs, bs[m].addr), first, r)
  {
    var hs' := ShrinkHeaders(hs, bs[m].addr);
    if Listed(hs', first, r) {
      forall x | 0 <= x < m
        ensures HeaderOk(hs', bs, x)
      {
        OffPage(bs, m, x);
        assert HeaderOk(hs, bs, x);
      }
      SameFront(hs', first, bs, r, m);
      ListedAt(hs', first, r, m);
    }
  }

  /** The list without blocks `j + 1` to `m`. */
  function Skipped(bs: seq<Block>, j: nat, m: nat): seq<Block>
    requires j < m < |bs|
  {
    bs[..j + 1] + bs[m + 1..]
  }

  lemma SkippedAt(bs: seq<Block>, j: nat, m: nat)
    requires j < m < |bs|
    ensures var r := Skipped(bs, j, m);
            && |r| == |bs| - (m - j)
            && (forall x :: 0 <= x <= j ==> r[x] == bs[x])
            && (forall x :: j < x < |r| ==> r[x] == bs[x + (m - j)])
  {}

  lemma ShrinkSkips(hs: Headers, first: nat, bs: seq<Block>, j: nat, m: nat)
    requires Tiled(bs) && Positive(bs) && Listed(hs, first, bs) && j < m < |bs| && bs[m].k == MAX_ORDER
    requires bs[m].addr in hs && hs[bs[m].addr].prev == bs[j].addr
    ensures Listed(ShrinkHeaders(hs, bs[m].addr), first, Skipped(bs, j, m))
  {
    var r, hs' := Skipped(bs, j, m), ShrinkHeaders(hs, bs[m].addr);
    SkippedAt(bs, j, m);
    assert HeaderOk(hs, bs, m) && HeaderOk(hs, bs, j);
    forall x | 0 <= x < |r|
      ensures HeaderOk(hs', r, x)
    {
      var x' := if x <= j then x else x + (m - j);
      OffPage(bs, m, x');
      assert HeaderOk(hs, bs, x');
      if x' != j { OtherBlock(bs, x', j); }
    }
  }

  /** A list without block `m` does not cover the page of that block. */
  lemma Uncovered(bs: seq<Block>, m: nat, r: seq<Block>)
    requires Tiled(bs) && Tiled(r) && m < |bs| && forall e :: e in r ==> e in bs && e != bs[m]
    ensures PageOf(bs[m]) !in PagesOf(r)
  {
    if PageOf(bs[m]) in PagesOf(r) {
      var x :| 0 <= x < |r| && PageOf(r[x]) == PageOf(bs[m]);
      var s := Start(r, x);
      assert FitsAt(bs, m) && FitsAt(r, x);
      InPage(bs[m]);
      StartPage(r[x], r[s].addr);
      var q := Covered(r, s, bs[m].addr);
      assert r[q] in r;
      var n :| 0 <= n < |bs| && bs[n] == r[q];
      Apart(bs, n, m, bs[m].addr);
    }
  }

  /** With a `prev` that is an earlier block, the blocks between are lost. */
  lemma ShrinkLoses(hs: Headers, first: nat, bs: seq<Block>, j: nat, m: nat, r: seq<Block>)
    requires Tiled(bs) && Positive(bs) && Listed(hs, first, bs) && j + 1 < m < |bs| && bs[m].k == MAX_ORDER
    requires bs[m].addr in hs && hs[bs[m].addr].prev == bs[j].addr
    requires Listed(ShrinkHeaders(hs, bs[m].addr), first, r) && Tiled(r) && Positive(r)
    ensures PageOf(bs[m - 1]) !in PagesOf(r)
  {
    ShrinkSkips(hs, first, bs, j, m);
    SkippedAt(bs, j, m);
    OneList(ShrinkHeaders(hs, bs[m].addr), first, Skipped(bs, j, m), r);
    forall e | e in r
      ensures e in bs && e != bs[m - 1]
    {
      var x :| 0 <= x < |r| && r[x] == e;
      var x' := if x <= j then x else x + (m - j);
      assert bs[x'] == e;
      OtherBlock(bs, x', m - 1);
    }
    Uncovered(bs, m - 1, r);
  }

  /** A sound list in memory with the given blocks in use, over the given pages. */
  ghost predicate Proper(hs: Headers, first: nat, live: set<Block>, cover: set<nat>, r: seq<Block>) {
    Listed(hs, first, r) && Tiled(r) && Positive(r) && Live(r) == live && PagesOf(r) == cover
  }

  /** Unmapping a page keeps the list sound if and only if `prev` is the block before it. */
  lemma ShrinkIff(hs: Headers, first: nat, bs: seq<Block>, m: nat)
    requires Tiled(bs) && Positive(bs) && Listed(hs, first, bs)
    requires 0 < m < |bs| && bs[m].k == MAX_ORDER && bs[m].available
    requires bs[m].addr in hs
    ensures hs[bs[m].addr].prev == bs[m - 1].addr
            <==> exists r :: Proper(ShrinkHeaders(hs, bs[m].addr), first, Live(bs), PagesOf(bs) - {PageOf(bs[m])}, r)
  {
    var hs', cover := ShrinkHeaders(hs, bs[m].addr), PagesOf(bs) - {PageOf(bs[m])};
    if hs[bs[m].addr].prev == bs[m - 1].addr {
      ShrinkListed(hs, first, bs, m);
      UnlinkTiled(bs, m);
      UnlinkLive(bs, m);
      UnlinkPages(bs, m);
      UnlinkedAt(bs, m);
      assert Proper(hs', first, Live(bs), cover, Unlinked(bs, m));
    } else {
      forall r | Proper(hs', first, Live(bs), cover, r)
        ensures false
      {
        StaleNoList(hs, first, bs, m, r);
      }
    }
  }

  lemma StaleNoList(hs: Headers, first: nat, bs: seq<Block>, m: nat, r: seq<Block>)
    requires Tiled(bs) && Positive(bs) && Listed(hs, first, bs) && 0 < m < |bs| && bs[m].k == MAX_ORDER
    requires bs[m].addr in hs && hs[bs[m].addr].prev != bs[m - 1].addr
    requires Listed(ShrinkHeaders(hs, bs[m].addr), first, r) && Tiled(r) && Positive(r)
    ensures PagesOf(r) != PagesOf(bs) - {PageOf(bs[m])}
  {
    if j :| 0 <= j < m && hs[bs[m].addr].prev == bs[j].addr {
      ShrinkLoses(hs, first, bs, j, m, r);
      WholePage(bs, m);
      assert PageOf(bs[m - 1]) in PagesOf(bs) && PageOf(bs[m - 1]) != PageOf(bs[m]);
    } else {
      ShrinkKeepsLink(hs, first, bs, m, r);
    }
  }

  // ---------------------------------------------------------------- free

  /** The pages of the heap after `free` for the block at `a`. */
  ghost function CoverAfter(hs: Headers, first: nat, a: nat, cover: set<nat>): set<nat>
    requires a in hs
  {
    if Unmaps(hs, first, a) then cover - {ClimbHeaders(Returned(hs, a), a).1 / PAGE} else cover
  }

  lemma ReturnedListed(hs: Headers, first: nat, bs: seq<Block>, i: nat)
    requires Tiled(bs) && i < |bs| && Listed(hs, first, bs)
    ensures bs[i].addr in hs && Listed(Returned(hs, bs[i].addr), first, Released(bs, i))
  {
    assert HeaderOk(hs, bs, i);
    var r := Released(bs, i);
    forall m | 0 <= m < |r|
      ensures HeaderOk(Returned(hs, bs[i].addr), r, m)
    {
      assert HeaderOk(hs, bs, m);
      if m != i { OtherBlock(bs, m, i); }
    }
  }

  /** What the code has in memory when all buddies matched. */
  lemma FreeingListed(hs: Headers, first: nat, bs: seq<Block>, pages: seq<nat>, i: nat)
    requires Sound(bs, pages) && i < |bs| && Listed(hs, first, bs) && Freeing(bs, i).matched
    ensures bs[i].addr in hs
    ensures var (h, z) := ClimbHeaders(Returned(hs, bs[i].addr), bs[i].addr); var f := Freeing(bs, i);
            && Listed(h, first, f.blocks) && z == f.blocks[f.at].addr && h[z].k == f.blocks[f.at].k
            && (Unmaps(hs, first, bs[i].addr) <==> Shrinks(f))
            && h.Keys == hs.Keys && (forall x :: x in hs ==> h[x].prev == hs[x].prev)
  {
    ReturnedListed(hs, first, bs, i);
    ReleasedSound(bs, pages, i);
    ClimbListed(Returned(hs, bs[i].addr), first, Released(bs, i), pages, i);
    ClimbPrev(Returned(hs, bs[i].addr), bs[i].addr);
    FreeingFront(bs, i);
    var f := Freeing(bs, i);
    assert HeaderOk(ClimbHeaders(Returned(hs, bs[i].addr), bs[i].addr).0, f.blocks, f.at);
  }

  /** The `prev` that `_shrink` uses. */
  lemma FreeingPrev(hs: Headers, prevs: map<nat, nat>, bs: seq<Block>, pages: seq<nat>, i: nat)
    requires Sound(bs, pages) && i < |bs| && PrevsOk(hs, prevs, bs) && Freeing(bs, i).matched && Shrinks(Freeing(bs, i))
    ensures var z := Freeing(bs, i).blocks[Freeing(bs, i).at].addr; z in hs && hs[z].prev == PrevOf(prevs, z)
  {
    var f := Freeing(bs, i);
    ReleasedSound(bs, pages, i);
    CoalesceSound(Released(bs, i), pages, i);
    WholePage(f.blocks, f.at);
    CoalesceFront(Released(bs, i), i);
    assert PrevOk(hs, prevs, bs, f.at);
  }

  lemma MatchedExact(hs: Headers, first: nat, prevs: map<nat, nat>, bs: seq<Block>, pages: seq<nat>, i: nat)
    requires Sound(bs, pages) && i < |bs| && !bs[i].available && Listed(hs, first, bs) && PrevsOk(hs, prevs, bs)
    requires Freeing(bs, i).matched
    ensures bs[i].addr in hs
    ensures FreeOk(bs, prevs, i)
            <==> exists r :: Proper(FreeHeaders(hs, first, bs[i].addr), first, Live(bs) - {bs[i]},
                                    CoverAfter(hs, first, bs[i].addr, PagesOf(bs)), r)
  {
    var f := Freeing(bs, i);
    FreeingListed(hs, first, bs, pages, i);
    FreeOkMeans(bs, pages, prevs, i);
    ReleasedSound(bs, pages, i);
    ReleasedLive(bs, i);
    ReleasedCover(bs, i);
    CoalesceSound(Released(bs, i), pages, i);
    CoalesceCover(Released(bs, i), pages, i);
    var (h, z) := ClimbHeaders(Returned(hs, bs[i].addr), bs[i].addr);
    if Shrinks(f) {
      FreeingPrev(hs, prevs, bs, pages, i);
      ShrinkIff(h, first, f.blocks, f.at);
      assert FreeHeaders(hs, first, bs[i].addr) == ShrinkHeaders(h, f.blocks[f.at].addr);
      assert CoverAfter(hs, first, bs[i].addr, PagesOf(bs)) == PagesOf(f.blocks) - {PageOf(f.blocks[f.at])};
    } else {
      assert FreeHeaders(hs, first, bs[i].addr) == h && CoverAfter(hs, first, bs[i].addr, PagesOf(bs)) == PagesOf(bs);
      assert Proper(h, first, Live(bs) - {bs[i]}, PagesOf(bs), f.blocks);
    }
  }

  lemma MismatchNone(hs: Headers, first: nat, bs: seq<Block>, pages: seq<nat>, i: nat, r: seq<Block>)
    requires Sound(bs, pages) && NoPairs(bs) && i < |bs| && !bs[i].available && Listed(hs, first, bs)
    requires !Freeing(bs, i).matched
    ensures bs[i].addr in hs
    ensures Listed(FreeHeaders(hs, first, bs[i].addr), first, r) && Tiled(r) ==> Live(r) != Live(bs) - {bs[i]}
  {
    ReturnedListed(hs, first, bs, i);
    ReleasedSound(bs, pages, i);
    ReleasedLive(bs, i);
    ReleasedPairs(bs, i);
    var ds, p, u := ClimbLost(Returned(hs, bs[i].addr), first, Released(bs, i), pages, i);
    var (h, z) := ClimbHeaders(Returned(hs, bs[i].addr), bs[i].addr);
    assert ds[u] in Live(ds);
    if Listed(FreeHeaders(hs, first, bs[i].addr), first, r) && Tiled(r) {
      if Unmaps(hs, first, bs[i].addr) {
        LostPage(h, first, ds, p, u, r);
      } else {
        LostNoList(h, first, ds, p, u, r);
      }
    }
  }

  /** The main result: after `free` memory holds a sound list, over the pages that are left, in which the block and
      nothing else was released, if and only if on the list before the call every buddy that is merged is one whole
      free block of the order reached, and the `prev` of a page that is unmapped is the block before the page. */
  lemma FreeExact(hs: Headers, first: nat, prevs: map<nat, nat>, bs: seq<Block>, pages: seq<nat>, i: nat)
    requires Sound(bs, pages) && NoPairs(bs) && i < |bs| && !bs[i].available
    requires Listed(hs, first, bs) && PrevsOk(hs, prevs, bs)
    ensures bs[i].addr in hs
    ensures FreeOk(bs, prevs, i)
            <==> exists r :: Proper(FreeHeaders(hs, first, bs[i].addr), first, Live(bs) - {bs[i]},
                                    CoverAfter(hs, first, bs[i].addr, PagesOf(bs)), r)
  {
    if Freeing(bs, i).matched {
      MatchedExact(hs, first, prevs, bs, pages, i);
    } else {
      FreeOkMeans(bs, pages, prevs, i);
      ReturnedListed(hs, first, bs, i);
      forall r
        ensures !Proper(FreeHeaders(hs, first, bs[i].addr), first, Live(bs) - {bs[i]},
                        CoverAfter(hs, first, bs[i].addr, PagesOf(bs)), r)
      {
        MismatchNone(hs, first, bs, pages, i, r);
      }
    }
  }

  /** Under the condition the list in memory is `FreedList`, and the first headers of pages keep their `prev`. */
  lemma FreeListed(hs: Headers, first: nat, prevs: map<nat, nat>, bs: seq<Block>, pages: seq<nat>, i: nat)
    requires Sound(bs, pages) && i < |bs| && !bs[i].available && FreeOk(bs, prevs, i)
    requires Listed(hs, first, bs) && PrevsOk(hs, prevs, bs)
    ensures bs[i].addr in hs
    ensures var h := FreeHeaders(hs, first, bs[i].addr);
            Listed(h, first, FreedList(bs, i)) && PrevsOk(h, prevs, FreedList(bs, i))
  {
    var f := Freeing(bs, i);
    FreeOkMeans(bs, pages, prevs, i);
    FreeingListed(hs, first, bs, pages, i);
    ReleasedSound(bs, pages, i);
    CoalesceSound(Released(bs, i), pages, i);
    var (h, z) := ClimbHeaders(Returned(hs, bs[i].addr), bs[i].addr);
    CoalescePrevs(bs, pages, i, hs, prevs, h);
    if Shrinks(f) {
      FreeingPrev(hs, prevs, bs, pages, i);
      ShrinkListed(h, first, f.blocks, f.at);
      ShrinkPrevs(h, prevs, f.blocks, f.at);
    }
  }

  lemma ShrinkPrevs(h: Headers, prevs: map<nat, nat>, bs: seq<Block>, m: nat)
    requires Tiled(bs) && m < |bs| && bs[m].k == MAX_ORDER && bs[m].addr in h && PrevsOk(h, prevs, bs)
    ensures PrevsOk(ShrinkHeaders(h, bs[m].addr), prevs, Unlinked(bs, m))
  {
    var r := Unlinked(bs, m);
    UnlinkedAt(bs, m);
    forall x | 0 <= x < |r|
      ensures PrevOk(ShrinkHeaders(h, bs[m].addr), prevs, r, x)
    {
      var x' := if x < m then x else x + 1;
      OffPage(bs, m, x');
      assert PrevOk(h, prevs, bs, x');
    }
  }

  predicate StartsIn(bs: seq<Block>, e: Block) { exists n :: 0 <= n < |bs| && bs[n].addr == e.addr }

  lemma StartsBefore(bs: seq<Block>, lo: nat, hi: nat, e: Block)
    requires lo < hi < |bs| && StartsIn(Merged(bs, lo, hi), e)
    ensures StartsIn(bs, e)
  {
    var r := Merged(bs, lo, hi);
    var n :| 0 <= n < |r| && r[n].addr == e.addr;
    assert bs[if n <= lo then n else n + (hi - lo)].addr == e.addr;
  }

  /** Merging makes no new addresses. */
  lemma {:induction false} CoalesceStarts(bs: seq<Block>, i: nat, f: Freed, e: Block)
    requires i < |bs| && f.blocks == Coalesce(bs, i).blocks && e in f.blocks
    ensures StartsIn(bs, e)
    decreases |bs|
  {
    if Turns(bs, i) {
      var j := BuddyIndex(bs, i);
      CoalesceStarts(Turned(bs, i), Min(i, j), f, e);
      StartsBefore(bs, Min(i, j), Max(i, j), e);
    } else {
      var n :| 0 <= n < |bs| && bs[n] == e;
    }
  }

  lemma CoalescePrevs(bs: seq<Block>, pages: seq<nat>, i: nat, hs: Headers, prevs: map<nat, nat>, h: Headers)
    requires i < |bs| && PrevsOk(hs, prevs, bs) && h.Keys == hs.Keys && forall x :: x in hs ==> h[x].prev == hs[x].prev
    ensures PrevsOk(h, prevs, Freeing(bs, i).blocks)
  {
    var f := Freeing(bs, i);
    forall m | 0 <= m < |f.blocks|
      ensures PrevOk(h, prevs, f.blocks, m)
    {
      CoalesceStarts(Released(bs, i), i, f, f.blocks[m]);
      var n :| 0 <= n < |bs| && Released(bs, i)[n].addr == f.blocks[m].addr;
      assert PrevOk(hs, prevs, bs, n);
    }
  }
}
