/** Freeing undoes allocating: merging takes back the splits that made a block. */
module BuddyUndo {
  import opened Buddy
  import opened BuddyMerge
  import opened BuddyHeap
  import opened BuddyFree

  lemma SplitHeads(bs: seq<Block>, i: nat, lo: nat)
    requires i < |bs| && lo < bs[i].k
    ensures var h := SplitDown(bs, i, lo);
            i + 1 < |h| && h[i] == bs[i].(k := lo) && h[i + 1] == Block(bs[i].addr + Size(lo), lo, true)
  {
    var h := SplitDown(bs, i, lo);
    assert h[i + 1] == Halves(bs[i].addr, lo, bs[i].k)[0];
  }

  lemma BuddyAhead(bs: seq<Block>, i: nat, lo: nat)
    requires Tiled(bs) && i < |bs| && MIN_ORDER <= lo < bs[i].k
    ensures var h := SplitDown(bs, i, lo);
            && i + 1 < |h| && BuddyIndex(h, i) == i + 1
            && h[i + 1].available && h[i + 1].k == h[i].k == lo
  {
    var h := SplitDown(bs, i, lo);
    SplitDownTiled(bs, i, lo);
    SplitHeads(bs, i, lo);
    assert FitsAt(bs, i);
    BuddyBehind(bs[i], lo);
    IndexUnique(h, i + 1);
  }

  lemma SplitTurn(bs: seq<Block>, i: nat, lo: nat, f: Freed)
    requires Tiled(bs) && i < |bs| && bs[i].available && MIN_ORDER <= lo < bs[i].k <= MAX_ORDER
    requires f == Coalesce(SplitDown(bs, i, lo + 1), i)
    ensures f == Coalesce(SplitDown(bs, i, lo), i)
  {
    BuddyAhead(bs, i, lo);
    MergeOfSplit(bs, i, lo);
    OneTurn(SplitDown(bs, i, lo), i);
  }

  lemma SplitNothing(bs: seq<Block>, i: nat)
    requires i < |bs|
    ensures SplitDown(bs, i, bs[i].k) == bs
  {}

  /** Freeing block `i` after it was split down to order `lo` leads to `f`. */
  predicate LeadsTo(bs: seq<Block>, i: nat, lo: nat, f: Freed)
    requires i < |bs| && lo <= bs[i].k
  {
    f == Coalesce(SplitDown(bs, i, lo), i)
  }

  lemma SplitStepLeads(bs: seq<Block>, i: nat, lo: nat, f: Freed)
    requires Tiled(bs) && i < |bs| && bs[i].available && MIN_ORDER <= lo < bs[i].k <= MAX_ORDER
    requires LeadsTo(bs, i, lo + 1, f)
    ensures LeadsTo(bs, i, lo, f)
  {
    SplitTurn(bs, i, lo, f);
  }

  lemma UnsplitLeads(bs: seq<Block>, i: nat, f: Freed)
    requires i < |bs| && f == Coalesce(bs, i)
    ensures LeadsTo(bs, i, bs[i].k, f)
  {
    SplitNothing(bs, i);
  }

  /** Splitting a block further and further does not change what freeing it leads to. */
  lemma {:induction false} CoalesceSplit(bs: seq<Block>, i: nat, lo: nat, f: Freed)
    requires Tiled(bs) && i < |bs| && bs[i].available && MIN_ORDER <= lo <= bs[i].k <= MAX_ORDER
    requires LeadsTo(bs, i, bs[i].k, f)
    ensures LeadsTo(bs, i, lo, f)
    decreases bs[i].k - lo
  {
    if lo < bs[i].k {
      CoalesceSplit(bs, i, lo + 1, f);
      SplitStepLeads(bs, i, lo, f);
    }
  }

  lemma OneTurn(h: seq<Block>, i: nat)
    requires i + 1 < |h| && BuddyIndex(h, i) == i + 1 && h[i + 1].available && h[i + 1].k == h[i].k < MAX_ORDER
    ensures Coalesce(h, i) == Coalesce(Merged(h, i, i + 1), i)
  {
    assert Turned(h, i) == Merged(h, i, i + 1);
  }

  lemma MergeOfSplit(bs: seq<Block>, i: nat, lo: nat)
    requires i < |bs| && lo < bs[i].k
    ensures i + 1 < |SplitDown(bs, i, lo)|
    ensures Merged(SplitDown(bs, i, lo), i, i + 1) == SplitDown(bs, i, lo + 1)
  {
    var b := bs[i];
    Mends(bs[..i], b.(k := lo), Block(b.addr + Size(lo), lo, true), Halves(b.addr, lo + 1, b.k), bs[i + 1..]);
  }

  lemma Mends(front: seq<Block>, b: Block, half: Block, halves: seq<Block>, tail: seq<Block>)
    ensures var h := front + [b] + ([half] + halves) + tail;
            Merged(h, |front|, |front| + 1) == front + [b.(k := b.k + 1)] + halves + tail
  {
    var h := front + [b] + ([half] + halves) + tail;
    assert h[..|front|] == front && h[|front|] == b && h[|front| + 2..] == halves + tail;
  }

  /** Allocating a block and freeing it again gives the list back as it was, however often it was split, unless
      the block it was split from had a free buddy to begin with. */
  lemma FreeUndoesMalloc(bs: seq<Block>, i: nat, order: nat)
    requires Tiled(bs) && i < |bs| && bs[i].available && MIN_ORDER <= order <= bs[i].k && !Turns(bs, i)
    ensures var taken := Taken(bs, i, order);
            && i < |taken| && taken[i].addr == bs[i].addr && !taken[i].available
            && Coalesce(taken[i := taken[i].(available := true)], i) == Freed(bs, i, true)
  {
    var h := SplitDown(bs, i, order);
    var taken := Taken(bs, i, order);
    assert h[i] == bs[i].(k := order);
    assert taken[i := taken[i].(available := true)] == h;
    assert FitsAt(bs, i);
    UnsplitLeads(bs, i, Freed(bs, i, true));
    CoalesceSplit(bs, i, order, Freed(bs, i, true));
  }
}
