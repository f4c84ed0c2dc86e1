/** A merge of buddies of different orders: from then on a free block covers one that is in use, and no list in memory
    is sound again. */
module BuddyLost {
  import opened Buddy
  import opened BuddyMerge
  import opened BuddyHeap
  import opened BuddyFree
  import opened BuddyHeaders

  // ---------------------------------------------------------------- cells without free buddies

  lemma BlockAtMiddle(bs: seq<Block>, m: nat, a: nat, k: nat) returns (n: nat)
    requires Tiled(bs) && m < |bs| && bs[m].addr == a && bs[m].k <= k < MAX_ORDER && a % Size(k + 1) == 0
    ensures n < |bs| && bs[n].addr == a + Size(k) && bs[n].k <= k
  {
    var s := Start(bs, m);
    CellInPage(a, k, a);
    var x := a + Size(k);
    n := Covered(bs, s, x);
    assert FitsAt(bs, n);
    TwiceDivides(a, Size(k));
    NextMultiple(a, Size(k));
    if bs[n].k > k {
      LargerHolds(bs[n], x, k, a);
      Apart(bs, n, m, a);
    }
    StartsAt(bs[n], x, k);
  }

  /** What starts with a block of at most its own size, and has no free buddies in it, is one free block or holds a
      block in use. */
  lemma {:induction false} CellLive(bs: seq<Block>, m: nat, a: nat, k: nat) returns (u: nat)
    requires Tiled(bs) && NoPairs(bs) && m < |bs| && bs[m].addr == a && bs[m].k <= k <= MAX_ORDER && a % Size(k) == 0
    ensures u < |bs| && a <= bs[u].addr < a + Size(k)
    ensures !bs[u].available || (u == m && bs[m].k == k)
    decreases k
  {
    if bs[m].k == k || !bs[m].available {
      u := m;
    } else {
      TwiceDivides(a, Size(k - 1));
      u := CellLive(bs, m, a, k - 1);
      if bs[u].available {
        var n := BlockAtMiddle(bs, m, a, k - 1);
        NextMultiple(a, Size(k - 1));
        u := CellLive(bs, n, a + Size(k - 1), k - 1);
        if bs[u].available { HalvesPair(bs, m, n, a, k - 1); }
      }
    }
  }

  lemma HalvesPair(bs: seq<Block>, m: nat, n: nat, a: nat, k: nat)
    requires m < |bs| && n < |bs| && bs[m].available && bs[n].available && bs[m].k == bs[n].k == k < MAX_ORDER
    requires bs[m].addr == a && bs[n].addr == a + Size(k) && a % Size(k + 1) == 0
    ensures !NoPairs(bs)
  {
    TwiceDivides(a, Size(k));
    LowerMultiple(a, k);
    var c := Cell(a, k);
    assert bs[m] in bs && bs[n] in bs && Pair(bs[m], bs[n]);
  }

  /** Beside a free block at the start of a larger cell lies a block in use. */
  lemma BesideFree(bs: seq<Block>, m: nat, k: nat) returns (u: nat)
    requires Tiled(bs) && NoPairs(bs) && m < |bs| && bs[m].available && bs[m].k < k <= MAX_ORDER
    requires bs[m].addr % Size(k) == 0
    ensures u < |bs| && !bs[u].available && bs[m].addr < bs[u].addr < bs[m].addr + Size(bs[m].k + 1)
    ensures Size(bs[m].k + 1) <= Size(k)
  {
    var a, j := bs[m].addr, bs[m].k;
    Divides(a, j + 1, k);
    SizeMono(j + 1, k);
    var n := BlockAtMiddle(bs, m, a, j);
    TwiceDivides(a, Size(j));
    NextMultiple(a, Size(j));
    u := CellLive(bs, n, a + Size(j), j);
    if bs[u].available { HalvesPair(bs, m, n, a, j); }
  }

  // ---------------------------------------------------------------- after the first mismatch

  /** In memory the list `bs` goes on unchanged up to block `p`; there a free block begins that covers block `u`, which
      is in use. */
  predicate Lost(hs: Headers, bs: seq<Block>, p: nat, u: nat) {
    && p < |bs| && u < |bs| && bs[p].addr in hs && !bs[u].available
    && (forall m :: 0 <= m < p ==> HeaderOk(hs, bs, m))
    && var h := hs[bs[p].addr];
       h.k <= MAX_ORDER && bs[p].addr % Size(h.k) == 0 && bs[p].addr < bs[u].addr < bs[p].addr + Size(h.k)
  }

  lemma HolderBefore(bs: seq<Block>, p: nat, b: nat) returns (m: nat)
    requires Tiled(bs) && p < |bs| && PAGE * PageOf(bs[p]) <= b < bs[p].addr
    ensures m < p && Within(b, bs[m]) && End(bs[m]) <= bs[p].addr
  {
    var s := Start(bs, p);
    StartPage(bs[p], bs[s].addr);
    m := Covered(bs, s, b);
    if m > p { InOrder(bs, p, m); }
    InOrder(bs, m, p);
  }

  lemma StartPage(e: Block, a: nat)
    requires a == PAGE * PageOf(e)
    ensures a / PAGE == PageOf(e) && e.addr < a + PAGE
  {}

  lemma BuddyBelow(a: nat, k: nat)
    requires k < MAX_ORDER && a % Size(k) == 0 && BuddyOf(a, k) < a
    ensures var b := BuddyOf(a, k);
            b + Size(k) == a && b % Size(k + 1) == 0 && b % Size(k) == 0 && PAGE * (a / PAGE) <= b
  {
    var c := Cell(a, k);
    CellInPage(a, k, c);
    TwiceDivides(c, Size(k));
  }

  /** A buddy that lies before the current block is a block of the unchanged part of the list. */
  lemma BuddyBefore(bs: seq<Block>, p: nat, k: nat) returns (m: nat)
    requires Tiled(bs) && p < |bs| && k < MAX_ORDER && bs[p].addr % Size(k) == 0 && BuddyOf(bs[p].addr, k) < bs[p].addr
    ensures m < p && bs[m].addr == BuddyOf(bs[p].addr, k) && bs[m].k <= k
    ensures bs[m].addr + Size(k) == bs[p].addr && bs[m].addr % Size(k + 1) == 0
  {
    var b := BuddyOf(bs[p].addr, k);
    BuddyBelow(bs[p].addr, k);
    m := HolderBefore(bs, p, b);
    assert FitsAt(bs, m);
    AtMost(bs[m], b, k);
    StartsAt(bs[m], b, k);
  }

  lemma AtMost(e: Block, b: nat, k: nat)
    requires Fits(e) && Within(b, e) && b % Size(k + 1) == 0 && End(e) <= b + Size(k)
    ensures e.k <= k
  {
    if e.k > k {
      Divides(e.addr, k + 1, e.k);
      SizeDivides(k + 1, e.k);
      Larger(b, Size(k + 1), e.addr, Size(e.k), b);
    }
  }

  lemma LostAhead(hs: Headers, bs: seq<Block>, p: nat, u: nat)
    requires Tiled(bs) && NoPairs(bs) && Lost(hs, bs, p, u)
    requires Goes(hs, bs[p].addr) && BuddyIn(hs, bs[p].addr) > bs[p].addr
    ensures Lost(MergeHeaders(hs, bs[p].addr, BuddyIn(hs, bs[p].addr)), bs, p, u)
  {
    var a, k := bs[p].addr, hs[bs[p].addr].k;
    var c := Cell(a, k);
    var hs' := MergeHeaders(hs, a, BuddyIn(hs, a));
    forall m | 0 <= m < p
      ensures HeaderOk(hs', bs, m)
    {
      OtherBlock(bs, m, p);
      assert HeaderOk(hs, bs, m);
    }
  }

  lemma LostBehind(hs: Headers, bs: seq<Block>, p: nat, u: nat) returns (m: nat, v: nat)
    requires Tiled(bs) && NoPairs(bs) && Lost(hs, bs, p, u)
    requires Goes(hs, bs[p].addr) && BuddyIn(hs, bs[p].addr) < bs[p].addr
    ensures m < |bs| && bs[m].addr == BuddyIn(hs, bs[p].addr)
    ensures Lost(MergeHeaders(hs, bs[m].addr, bs[p].addr), bs, m, v)
  {
    var a, k := bs[p].addr, hs[bs[p].addr].k;
    m := BuddyBefore(bs, p, k);
    assert HeaderOk(hs, bs, m);
    var hs' := MergeHeaders(hs, bs[m].addr, a);
    forall n | 0 <= n < m
      ensures HeaderOk(hs', bs, n)
    {
      OtherBlock(bs, n, m);
      assert HeaderOk(hs, bs, n);
    }
    if bs[m].k == k {
      v := u;
    } else {
      Divides(bs[m].addr, bs[m].k + 1, k + 1);
      v := BesideFree(bs, m, k + 1);
    }
  }

  /** All further turns leave it so. */
  lemma {:induction false} StaysLost(hs: Headers, bs: seq<Block>, p: nat, u: nat) returns (p': nat, u': nat)
    requires Tiled(bs) && NoPairs(bs) && Lost(hs, bs, p, u)
    ensures var (h, z) := ClimbHeaders(hs, bs[p].addr); Lost(h, bs, p', u') && z == bs[p'].addr
    decreases bs[p].addr, MAX_ORDER - hs[bs[p].addr].k
  {
    p', u' := p, u;
    var a := bs[p].addr;
    if Goes(hs, a) {
      var b := BuddyIn(hs, a);
      BuddyAligned(a, hs[a].k);
      if b > a {
        LostAhead(hs, bs, p, u);
        p', u' := StaysLost(MergeHeaders(hs, a, b), bs, p, u);
      } else {
        var m, v := LostBehind(hs, bs, p, u);
        p', u' := StaysLost(MergeHeaders(hs, b, a), bs, m, v);
      }
    }
  }

  /** The first merge of buddies of different orders. */
  lemma BecomesLost(hs: Headers, first: nat, cs: seq<Block>, i: nat) returns (p: nat, u: nat)
    requires Tiled(cs) && Positive(cs) && NoPairs(cs) && i < |cs| && cs[i].available && Listed(hs, first, cs)
    requires Turns(cs, i) && cs[BuddyIndex(cs, i)].k != cs[i].k
    ensures cs[i].addr in hs && Goes(hs, cs[i].addr)
    ensures var a, b := cs[i].addr, BuddyIn(hs, cs[i].addr);
            p < |cs| && cs[p].addr == Min(a, b) && Lost(MergeHeaders(hs, Min(a, b), Max(a, b)), cs, p, u)
  {
    LooksAt(hs, first, cs, i);
    BuddyIsBlock(cs, i);
    assert FitsAt(cs, i);
    var j := BuddyIndex(cs, i);
    var a, b, k := cs[i].addr, cs[j].addr, cs[i].k;
    var c := Cell(a, k);
    BuddyAligned(a, k);
    assert HeaderOk(hs, cs, j) && HeaderOk(hs, cs, i);
    u := BesideFree(cs, j, k);
    p := Min(i, j);
    var hs' := MergeHeaders(hs, Min(a, b), Max(a, b));
    forall m | 0 <= m < p
      ensures HeaderOk(hs', cs, m)
    {
      OtherBlock(cs, m, p);
      assert HeaderOk(hs, cs, m);
    }
    if j < i {
      Divides(b, cs[j].k + 1, k);
    }
  }

  /** When some buddies do not match, the loop ends with such a block. */
  lemma {:induction false} ClimbLost(hs: Headers, first: nat, cs: seq<Block>, pages: seq<nat>, i: nat)
    returns (ds: seq<Block>, p: nat, u: nat)
    requires Sound(cs, pages) && i < |cs| && cs[i].available && Listed(hs, first, cs) && !Coalesce(cs, i).matched
    requires NoPairsBut(cs, cs[i])
    ensures cs[i].addr in hs && Sound(ds, pages) && Live(ds) == Live(cs) && first == AddrAt(ds, 0)
    ensures var (h, z) := ClimbHeaders(hs, cs[i].addr); Lost(h, ds, p, u) && z == ds[p].addr
    decreases |cs|
  {
    LooksAt(hs, first, cs, i);
    var j := BuddyIndex(cs, i);
    TurnAddrs(hs, first, cs, i);
    if cs[j].k == cs[i].k {
      TurnListed(hs, first, cs, i);
      TurnedSound(cs, pages, i);
      TurnedPairs(cs, i);
      var hs' := MergeHeaders(hs, cs[Min(i, j)].addr, cs[Max(i, j)].addr);
      ds, p, u := ClimbLost(hs', first, Turned(cs, i), pages, Min(i, j));
    } else {
      NoTurnNoPair(cs, i);
      p, u := BecomesLost(hs, first, cs, i);
      ds := cs;
      p, u := StaysLost(MergeHeaders(hs, cs[Min(i, j)].addr, cs[Max(i, j)].addr), cs, p, u);
    }
  }

  /** Then no list in memory is sound and has the same blocks in use. */
  lemma LostNoList(hs: Headers, first: nat, bs: seq<Block>, p: nat, u: nat, r: seq<Block>)
    requires Lost(hs, bs, p, u) && first == AddrAt(bs, 0) && Positive(bs)
    requires Listed(hs, first, r) && Tiled(r)
    ensures bs[u] !in Live(r)
  {
    if bs[u] in Live(r) {
      SameFront(hs, first, bs, r, p);
      assert HeaderOk(hs, r, p);
      var q :| 0 <= q < |r| && !r[q].available && r[q] == bs[u];
      assert Within(bs[u].addr, r[p]) && Within(bs[u].addr, r[q]);
      Apart(r, p, q, bs[u].addr);
    }
  }

  /** Nor does unmapping the page help: the block in use lies in it. */
  lemma LostPage(hs: Headers, first: nat, bs: seq<Block>, p: nat, u: nat, r: seq<Block>)
    requires Lost(hs, bs, p, u) && hs[bs[p].addr].k == MAX_ORDER && Listed(ShrinkHeaders(hs, bs[p].addr), first, r)
    ensures bs[u] !in Live(r)
  {
    Sizes();
    var a := bs[p].addr;
    if bs[u] in Live(r) {
      var q :| 0 <= q < |r| && !r[q].available && r[q] == bs[u];
      assert HeaderOk(ShrinkHeaders(hs, a), r, q);
      SamePageAs(a, bs[u].addr);
      assert false;
    }
  }

  lemma SamePageAs(a: nat, x: nat)
    requires a % PAGE == 0 && a <= x < a + PAGE
    ensures x / PAGE == a / PAGE
  {}
}
