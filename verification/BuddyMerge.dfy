/** Merging freed blocks (block_coalesce of _block.c). */
module BuddyMerge {
  import opened Buddy

  /** `a ^ (1 << k)` */
  function BuddyOf(a: nat, k: nat): nat {
    if k == 0 then (if a % 2 == 0 then a + 1 else a - 1) else 2 * BuddyOf(a / 2, k - 1) + a % 2
  }

  // ---------------------------------------------------------------- multiples

  lemma HalfMultiple(a: nat, s: nat)
    requires s > 0 && a % (2 * s) == 0
    ensures a % 2 == 0 && (a / 2) % s == 0
  {
    var p := a / (2 * s);
    assert a == (2 * s) * p == 2 * (s * p);
    ModZero(a / 2, s, p);
  }

  /** Which half of its cell of twice the size a multiple of 2^k starts. */
  predicate Lower(a: nat, k: nat) {
    if k == 0 then a % 2 == 0 else Lower(a / 2, k - 1)
  }

  /** A block and its buddy are the two halves of a cell of twice the size. */
  lemma {:induction false} Cell(a: nat, k: nat) returns (c: nat)
    requires a % Size(k) == 0
    ensures c % Size(k + 1) == 0
    ensures if Lower(a, k) then a == c && BuddyOf(a, k) == c + Size(k) else a == c + Size(k) && BuddyOf(a, k) == c
  {
    if k == 0 {
      c := if a % 2 == 0 then a else a - 1;
    } else {
      HalfMultiple(a, Size(k - 1));
      var c' := Cell(a / 2, k - 1);
      c := 2 * c';
      Doubled(c', k);
    }
  }

  lemma Doubled(c: nat, k: nat)
    requires c % Size(k) == 0
    ensures (2 * c) % Size(k + 1) == 0
  {
    var s := Size(k);
    var p := c / s;
    assert 2 * c == 2 * (s * p) == (2 * s) * p;
    ModZero(2 * c, 2 * s, p);
  }

  lemma {:induction false} LowerMultiple(a: nat, k: nat)
    requires a % Size(k + 1) == 0
    ensures Lower(a, k)
  {
    if k > 0 {
      HalfMultiple(a, Size(k));
      LowerMultiple(a / 2, k - 1);
    }
  }

  // ---------------------------------------------------------------- the buddy of a block

  function IndexFrom(bs: seq<Block>, a: nat, i: nat): (j: nat)
    requires i <= |bs|
    ensures i <= j <= |bs| && (j < |bs| ==> bs[j].addr == a)
    ensures forall m :: i <= m < j ==> bs[m].addr != a
    decreases |bs| - i
  {
    if i == |bs| || bs[i].addr == a then i else IndexFrom(bs, a, i + 1)
  }

  /** Where the block at address `a` stands in the list. */
  function IndexOf(bs: seq<Block>, a: nat): nat { IndexFrom(bs, a, 0) }

  /** A block that holds an address of the buddy's half and is larger holds the other half, too. */
  lemma LargerHolds(e: Block, a: nat, k: nat, c: nat)
    requires Fits(e) && e.k > k && c % Size(k + 1) == 0 && c <= a < c + Size(k + 1)
    requires Within(a, e)
    ensures forall x: nat :: c <= x < c + Size(k + 1) ==> Within(x, e)
  {
    Divides(e.addr, k + 1, e.k);
    SizeDivides(k + 1, e.k);
    Larger(c, Size(k + 1), e.addr, Size(e.k), a);
  }

  lemma StartsAt(e: Block, b: nat, k: nat)
    requires Fits(e) && e.k <= k && b % Size(k) == 0 && Within(b, e)
    ensures e.addr == b
  {
    Divides(b, e.k, k);
    if e.addr < b { MultipleGap(e.addr, b, Size(e.k)); }
  }

  lemma HolderOfBuddy(bs: seq<Block>, i: nat) returns (m: nat)
    requires Tiled(bs) && i < |bs| && bs[i].k < MAX_ORDER
    ensures m < |bs| && Within(BuddyOf(bs[i].addr, bs[i].k), bs[m]) && PageOf(bs[m]) == PageOf(bs[i])
  {
    var a, k := bs[i].addr, bs[i].k;
    assert FitsAt(bs, i);
    var c := Cell(a, k);
    var s := Start(bs, i);
    CellInPage(a, k, c);
    m := Covered(bs, s, BuddyOf(a, k));
  }

  lemma HolderNotLarger(bs: seq<Block>, i: nat, m: nat)
    requires Tiled(bs) && i < |bs| && bs[i].k < MAX_ORDER
    requires m < |bs| && Within(BuddyOf(bs[i].addr, bs[i].k), bs[m])
    ensures bs[m].k <= bs[i].k
  {
    var a, k := bs[i].addr, bs[i].k;
    assert FitsAt(bs, i) && FitsAt(bs, m);
    if bs[m].k > k {
      var c := Cell(a, k);
      LargerHolds(bs[m], BuddyOf(a, k), k, c);
      Apart(bs, i, m, a);
    }
  }

  /** The block that lies at the buddy address of block `i`. */
  lemma AtBuddy(bs: seq<Block>, i: nat) returns (m: nat)
    requires Tiled(bs) && i < |bs| && bs[i].k < MAX_ORDER
    ensures m < |bs| && m != i && bs[m].k <= bs[i].k && PageOf(bs[m]) == PageOf(bs[i])
    ensures bs[m].addr == BuddyOf(bs[i].addr, bs[i].k)
  {
    m := HolderOfBuddy(bs, i);
    HolderNotLarger(bs, i, m);
    assert FitsAt(bs, i) && FitsAt(bs, m);
    BuddyAligned(bs[i].addr, bs[i].k);
    StartsAt(bs[m], BuddyOf(bs[i].addr, bs[i].k), bs[i].k);
  }

  /** A block of at most half a page has a buddy address in its own page; a block starts there, and it is not
      larger. */
  lemma BuddyIsBlock(bs: seq<Block>, i: nat)
    requires Tiled(bs) && i < |bs| && bs[i].k < MAX_ORDER
    ensures var j := IndexOf(bs, BuddyOf(bs[i].addr, bs[i].k));
            && j < |bs| && j != i && bs[j].k <= bs[i].k && PageOf(bs[j]) == PageOf(bs[i])
            && bs[j].addr == BuddyOf(bs[i].addr, bs[i].k)
            && (bs[j].addr < bs[i].addr <==> j < i)
  {
    var m := AtBuddy(bs, i);
    var j := IndexOf(bs, bs[m].addr);
    Apart(bs, j, m, bs[m].addr);
    if j < i { InOrder(bs, j, i); } else { InOrder(bs, i, j); }
  }

  lemma BuddyAligned(a: nat, k: nat)
    requires a % Size(k) == 0
    ensures BuddyOf(a, k) % Size(k) == 0 && BuddyOf(a, k) != a
  {
    var c := Cell(a, k);
    TwiceDivides(c, Size(k));
    NextMultiple(c, Size(k));
  }

  lemma Larger(c: nat, u: nat, e: nat, t: nat, b: nat)
    requires u > 0 && c % u == 0 && e % u == 0 && t % u == 0 && c <= b < c + u && e <= b < e + t
    ensures e <= c && c + u <= e + t
  {
    if c < e { MultipleGap(c, e, u); }
    var p, q := e / u, t / u;
    assert e + t == u * p + u * q == u * (p + q);
    ModZero(e + t, u, p + q);
    MultipleGap(c, e + t, u);
  }

  lemma CellInPage(a: nat, k: nat, c: nat)
    requires k < MAX_ORDER && c % Size(k + 1) == 0 && c <= a < c + Size(k + 1)
    ensures PAGE * (a / PAGE) <= c && c + Size(k + 1) <= PAGE * (a / PAGE) + PAGE
  {
    var p := PAGE * (a / PAGE);
    Sizes();
    ModZero(p, PAGE, a / PAGE);
    Divides(p, k + 1, MAX_ORDER);
    SizeDivides(k + 1, MAX_ORDER);
    Larger(c, Size(k + 1), p, PAGE, a);
  }

  /** Blocks that share a byte are the same. */
  lemma Apart(bs: seq<Block>, i: nat, j: nat, a: nat)
    requires Tiled(bs) && i < |bs| && j < |bs| && Within(a, bs[i]) && Within(a, bs[j])
    ensures i == j
  {
    if i < j { InOrder(bs, i, j); } else if j < i { InOrder(bs, j, i); }
  }

  // ---------------------------------------------------------------- one turn of the loop

  /** What one turn of the loop in `block_coalesce` does to the list: the block that comes first takes over what
      follows the other one, and its order goes up by one.  The orders are not compared. */
  function Merged(bs: seq<Block>, lo: nat, hi: nat): seq<Block>
    requires lo < hi < |bs|
  {
    bs[..lo] + [bs[lo].(k := bs[lo].k + 1)] + bs[hi + 1..]
  }

  function BuddyIndex(bs: seq<Block>, i: nat): nat
    requires i < |bs|
  {
    IndexOf(bs, BuddyOf(bs[i].addr, bs[i].k))
  }

  function Min(i: nat, j: nat): nat { if i < j then i else j }
  function Max(i: nat, j: nat): nat { if i < j then j else i }

  /** Buddies of one order are neighbours in the list. */
  lemma SameOrderNext(bs: seq<Block>, i: nat)
    requires Tiled(bs) && i < |bs| && bs[i].k < MAX_ORDER
    ensures var j := BuddyIndex(bs, i);
            && j < |bs| && j != i
            && (bs[j].k == bs[i].k ==>
                  && Max(i, j) == Min(i, j) + 1
                  && bs[Min(i, j)].addr % Size(bs[i].k + 1) == 0
                  && End(bs[Min(i, j)]) == bs[Max(i, j)].addr)
  {
    BuddyIsBlock(bs, i);
    var j := BuddyIndex(bs, i);
    if bs[j].k == bs[i].k {
      assert FitsAt(bs, i);
      var c := Cell(bs[i].addr, bs[i].k);
      var lo, hi := Min(i, j), Max(i, j);
      assert bs[lo].addr == c && bs[hi].addr == End(bs[lo]);
      InOrder(bs, lo, hi);
      NextIsNext(bs, lo, hi);
    }
  }

  lemma NextIsNext(bs: seq<Block>, lo: nat, hi: nat)
    requires Tiled(bs) && lo < hi < |bs| && bs[hi].addr == End(bs[lo]) && PageOf(bs[lo]) == PageOf(bs[hi])
    ensures hi == lo + 1
  {
    assert FitsAt(bs, lo) && FitsAt(bs, hi) && Joined(bs, lo);
    InPage(bs[lo]);
    InPage(bs[hi]);
    assert End(bs[lo]) % PAGE != 0;
    Apart(bs, lo + 1, hi, bs[hi].addr);
  }

  lemma {:induction false} SizeMono(j: nat, k: nat)
    requires j <= k
    ensures Size(j) <= Size(k)
  {
    if j < k { SizeMono(j, k - 1); }
  }

  lemma MergedAt(bs: seq<Block>, lo: nat)
    requires lo + 1 < |bs|
    ensures var r := Merged(bs, lo, lo + 1);
            && |r| == |bs| - 1
            && (forall m :: 0 <= m < lo ==> r[m] == bs[m])
            && (forall m :: lo < m < |r| ==> r[m] == bs[m + 1])
            && r[lo] == bs[lo].(k := bs[lo].k + 1)
  {}

  lemma MergeChain(bs: seq<Block>, lo: nat)
    requires Chain(bs) && lo + 1 < |bs| && bs[lo].k == bs[lo + 1].k < MAX_ORDER
    requires bs[lo].addr % Size(bs[lo].k + 1) == 0 && End(bs[lo]) == bs[lo + 1].addr
    ensures Chain(Merged(bs, lo, lo + 1))
  {
    var r := Merged(bs, lo, lo + 1);
    MergedAt(bs, lo);
    assert End(r[lo]) == End(bs[lo + 1]);
    assert FitsAt(bs, lo);
    forall m | 0 <= m < |r|
      ensures FitsAt(r, m)
    {
      assert FitsAt(bs, if m <= lo then m else m + 1);
    }
    forall m | 0 <= m < |r| - 1
      ensures Joined(r, m)
    {
      if m < lo { assert Joined(bs, m); } else { assert Joined(bs, m + 1); }
    }
  }

  /** Merging two halves of one cell undoes a split. */
  lemma MergeHalves(bs: seq<Block>, lo: nat)
    requires Tiled(bs) && lo + 1 < |bs| && bs[lo].k == bs[lo + 1].k < MAX_ORDER
    requires bs[lo].addr % Size(bs[lo].k + 1) == 0 && End(bs[lo]) == bs[lo + 1].addr
    ensures Tiled(Merged(bs, lo, lo + 1))
  {
    var r := Merged(bs, lo, lo + 1);
    MergedAt(bs, lo);
    MergeChain(bs, lo);
    forall m, n | 0 <= m < n < |r|
      ensures StartApart(r, m, n)
    {
      assert StartApart(bs, if m <= lo then m else m + 1, if n <= lo then n else n + 1);
    }
  }

  /** A block merged with the start of its buddy reaches over what follows. */
  lemma MergeAheadBreaks(bs: seq<Block>, i: nat, j: nat)
    requires Tiled(bs) && i < j < |bs| && bs[i].k < MAX_ORDER && bs[j].k < bs[i].k
    requires bs[j].addr == End(bs[i]) && PageOf(bs[j]) == PageOf(bs[i])
    requires bs[i].addr % Size(bs[i].k + 1) == 0
    ensures !Chain(Merged(bs, i, j))
  {
    var r := Merged(bs, i, j);
    var k := bs[i].k;
    SizeMono(bs[j].k + 1, k);
    assert FitsAt(bs, i) && FitsAt(bs, j);
    InPage(bs[j]);
    CellInPage(bs[i].addr, k, bs[i].addr);
    assert End(bs[j]) < bs[i].addr + Size(k + 1) == End(r[i]);
    assert End(bs[j]) % PAGE != 0;
    assert Joined(bs, j);
    assert r[i + 1] == bs[j + 1];
    assert !Joined(r, i);
  }

  /** The start of a buddy merged with the block after it leaves a gap. */
  lemma MergeBehindBreaks(bs: seq<Block>, j: nat, i: nat)
    requires Tiled(bs) && j < i < |bs| && bs[i].k < MAX_ORDER && bs[j].k < bs[i].k
    requires bs[i].addr == bs[j].addr + Size(bs[i].k) && PageOf(bs[j]) == PageOf(bs[i])
    ensures !Chain(Merged(bs, j, i))
  {
    var r := Merged(bs, j, i);
    SizeMono(bs[j].k + 1, bs[i].k);
    assert FitsAt(bs, i) && FitsAt(bs, j);
    InPage(bs[i]);
    InPage(bs[j]);
    NotMultiple(End(r[j]), PageOf(bs[i]));
    if i + 1 < |bs| {
      assert Joined(bs, i);
      assert r[j + 1] == bs[i + 1];
      assert !Joined(r, j);
    } else {
      assert r[|r| - 1] == r[j];
    }
  }

  lemma NotMultiple(e: nat, p: nat)
    requires PAGE * p < e < PAGE * p + PAGE
    ensures e % PAGE != 0
  {}

  /** One turn of the loop keeps the list sound exactly when the buddy has the block's own order. */
  lemma TurnSound(bs: seq<Block>, i: nat)
    requires Tiled(bs) && i < |bs| && bs[i].k < MAX_ORDER
    ensures var j := BuddyIndex(bs, i);
            && j < |bs| && j != i
            && (Tiled(Merged(bs, Min(i, j), Max(i, j))) <==> bs[j].k == bs[i].k)
  {
    SameOrderNext(bs, i);
    BuddyIsBlock(bs, i);
    var j := BuddyIndex(bs, i);
    assert FitsAt(bs, i);
    var c := Cell(bs[i].addr, bs[i].k);
    if bs[j].k == bs[i].k {
      MergeHalves(bs, Min(i, j));
    } else if i < j {
      MergeAheadBreaks(bs, i, j);
    } else {
      MergeBehindBreaks(bs, j, i);
    }
  }
}
