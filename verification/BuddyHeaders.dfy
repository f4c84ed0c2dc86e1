/** Lists of block headers in memory, linked by address, and what `free` does to them (free.c; block_coalesce and
    _shrink of _block.c). */
module BuddyHeaders {
  import opened Buddy
  import opened BuddyMerge
  import opened BuddyHeap
  import opened BuddyFree

  /** `struct block`; addresses, with 0 for NULL. */
  datatype Header = Header(available: bool, k: nat, prev: nat, next: nat)

  type Headers = map<nat, Header>

  function AddrAt(bs: seq<Block>, i: nat): nat { if i < |bs| then bs[i].addr else 0 }

  predicate HeaderOk(hs: Headers, bs: seq<Block>, i: nat)
    requires i < |bs|
  {
    && bs[i].addr in hs
    && var h := hs[bs[i].addr];
       h.available == bs[i].available && h.k == bs[i].k && h.next == AddrAt(bs, i + 1)
  }

  /** The headers in memory form the list `bs`. */
  predicate Listed(hs: Headers, first: nat, bs: seq<Block>) {
    first == AddrAt(bs, 0) && forall i :: 0 <= i < |bs| ==> HeaderOk(hs, bs, i)
  }

  predicate PrevOk(hs: Headers, prevs: map<nat, nat>, bs: seq<Block>, i: nat)
    requires i < |bs|
  {
    bs[i].addr % PAGE == 0 ==> bs[i].addr in hs && hs[bs[i].addr].prev == PrevOf(prevs, bs[i].addr)
  }

  /** The headers at the start of pages have these `prev` pointers. */
  predicate PrevsOk(hs: Headers, prevs: map<nat, nat>, bs: seq<Block>) {
    forall i :: 0 <= i < |bs| ==> PrevOk(hs, prevs, bs, i)
  }

  predicate Positive(bs: seq<Block>) { forall i :: 0 <= i < |bs| ==> bs[i].addr > 0 }

  // ---------------------------------------------------------------- reading a list

  /** As far as the headers form the list, every list they form begins like it. */
  lemma {:induction false} SameFront(hs: Headers, first: nat, bs: seq<Block>, r: seq<Block>, n: nat)
    requires Listed(hs, first, r) && first == AddrAt(bs, 0) && Positive(bs) && n < |bs|
    requires forall m :: 0 <= m < n ==> HeaderOk(hs, bs, m)
    ensures n < |r| && r[n].addr == bs[n].addr && forall m :: 0 <= m < n ==> r[m] == bs[m]
  {
    if n > 0 {
      SameFront(hs, first, bs, r, n - 1);
      assert HeaderOk(hs, r, n - 1) && HeaderOk(hs, bs, n - 1);
    }
  }

  /** Memory holds one list at most. */
  lemma OneList(hs: Headers, first: nat, bs: seq<Block>, r: seq<Block>)
    requires Listed(hs, first, bs) && Listed(hs, first, r) && Positive(bs) && Positive(r)
    ensures r == bs
  {
    if |bs| > 0 {
      SameFront(hs, first, bs, r, |bs| - 1);
      assert HeaderOk(hs, bs, |bs| - 1) && HeaderOk(hs, r, |bs| - 1);
      assert r[|bs| - 1] == bs[|bs| - 1];
    }
  }

  // ---------------------------------------------------------------- merging

  predicate Available(hs: Headers, a: nat) { a in hs && hs[a].available }

  /** The lower of the two blocks takes over what follows the other one, and its order goes up by one. */
  function MergeHeaders(hs: Headers, lo: nat, hi: nat): Headers
    requires lo in hs && hi in hs
  {
    hs[lo := hs[lo].(k := hs[lo].k + 1, next := hs[hi].next)]
  }

  function BuddyIn(hs: Headers, a: nat): nat
    requires a in hs
  {
    BuddyOf(a, hs[a].k)
  }

  /** The condition of the loop.  At an address without a header the flag does not matter: below the size of a page a
      block starts at every buddy address, and whole pages are not merged. */
  predicate Goes(hs: Headers, a: nat)
    requires a in hs
  {
    BuddyIn(hs, a) != 0 && Available(hs, BuddyIn(hs, a)) && hs[a].k < MAX_ORDER
  }

  /** The loop of `block_coalesce`, and the block it ends with. */
  function ClimbHeaders(hs: Headers, a: nat): (r: (Headers, nat))
    requires a in hs
    ensures r.1 in r.0
    decreases a, MAX_ORDER - hs[a].k
  {
    if Goes(hs, a) then
      var b := BuddyIn(hs, a);
      ClimbHeaders(MergeHeaders(hs, Min(a, b), Max(a, b)), Min(a, b))
    else (hs, a)
  }

  /** `_shrink`: the block that `prev` names gets a new `next`, and the page is unmapped.  Where `prev` names no block of
      the list any more, no header of the list lies; what is overwritten there is not modelled. */
  function ShrinkHeaders(hs: Headers, a: nat): Headers
    requires a in hs
  {
    var p := hs[a].prev;
    var linked := if p != 0 && p in hs then hs[p := hs[p].(next := hs[a].next)] else hs;
    map x | x in linked && x / PAGE != a / PAGE :: linked[x]
  }

  function Returned(hs: Headers, a: nat): Headers
    requires a in hs
  {
    hs[a := hs[a].(available := true)]
  }

  /** Whether `free` unmaps a page in the end. */
  predicate Unmaps(hs: Headers, first: nat, a: nat)
    requires a in hs
  {
    var (h, z) := ClimbHeaders(Returned(hs, a), a);
    h[z].k == MAX_ORDER && z != first
  }

  /** `free` for the block at `a`. */
  function FreeHeaders(hs: Headers, first: nat, a: nat): Headers
    requires a in hs
  {
    var (h, z) := ClimbHeaders(Returned(hs, a), a);
    if Unmaps(hs, first, a) then ShrinkHeaders(h, z) else h
  }

  lemma {:induction false} ClimbPrev(hs: Headers, a: nat)
    requires a in hs
    ensures var h := ClimbHeaders(hs, a).0; h.Keys == hs.Keys && forall x :: x in hs ==> h[x].prev == hs[x].prev
    decreases a, MAX_ORDER - hs[a].k
  {
    if Goes(hs, a) {
      var b := BuddyIn(hs, a);
      ClimbPrev(MergeHeaders(hs, Min(a, b), Max(a, b)), Min(a, b));
    }
  }

  /** What the loop of `block_coalesce` looks at. */
  lemma LooksAt(hs: Headers, first: nat, bs: seq<Block>, i: nat)
    requires Tiled(bs) && Positive(bs) && i < |bs| && Listed(hs, first, bs)
    ensures bs[i].addr in hs && hs[bs[i].addr].k == bs[i].k && (Goes(hs, bs[i].addr) <==> Turns(bs, i))
    ensures bs[i].k < MAX_ORDER ==>
      var j := BuddyIndex(bs, i);
      j < |bs| && j != i && bs[j].addr == BuddyIn(hs, bs[i].addr) && (bs[j].addr < bs[i].addr <==> j < i)
  {
    assert HeaderOk(hs, bs, i);
    if bs[i].k < MAX_ORDER {
      BuddyIsBlock(bs, i);
      assert HeaderOk(hs, bs, BuddyIndex(bs, i));
    }
  }

  /** One turn, on the headers. */
  lemma TurnListed(hs: Headers, first: nat, bs: seq<Block>, i: nat)
    requires Tiled(bs) && Positive(bs) && i < |bs| && Listed(hs, first, bs) && Turns(bs, i)
    ensures var j := BuddyIndex(bs, i); var lo, hi := Min(i, j), Max(i, j);
            && bs[lo].addr in hs && bs[hi].addr in hs
            && Listed(MergeHeaders(hs, bs[lo].addr, bs[hi].addr), first, Turned(bs, i))
            && Turned(bs, i)[lo].addr == bs[lo].addr
  {
    LooksAt(hs, first, bs, i);
    var j := BuddyIndex(bs, i);
    var lo, hi := Min(i, j), Max(i, j);
    assert HeaderOk(hs, bs, lo) && HeaderOk(hs, bs, hi);
    var hs' := MergeHeaders(hs, bs[lo].addr, bs[hi].addr);
    var r := Turned(bs, i);
    forall m | 0 <= m < |r|
      ensures HeaderOk(hs', r, m)
    {
      var m' := if m <= lo then m else m + (hi - lo);
      assert HeaderOk(hs, bs, m');
      if m' != lo { OtherBlock(bs, m', lo); }
    }
  }

  /** The addresses that the turn works on, in the terms of the list. */
  lemma TurnAddrs(hs: Headers, first: nat, bs: seq<Block>, i: nat)
    requires Tiled(bs) && Positive(bs) && i < |bs| && Listed(hs, first, bs) && Turns(bs, i)
    ensures bs[i].addr in hs && Goes(hs, bs[i].addr)
    ensures var j := BuddyIndex(bs, i); var a, b := bs[i].addr, BuddyIn(hs, bs[i].addr);
            Min(a, b) == bs[Min(i, j)].addr && Max(a, b) == bs[Max(i, j)].addr
  {
    LooksAt(hs, first, bs, i);
  }

  predicate Result(h: Headers, z: nat, first: nat, f: Freed)
    requires f.at < |f.blocks|
  {
    Listed(h, first, f.blocks) && z == f.blocks[f.at].addr
  }

  /** While the buddies match, the loop does on the headers what `Coalesce` does on the list. */
  lemma {:induction false} ClimbListed(hs: Headers, first: nat, cs: seq<Block>, pages: seq<nat>, i: nat)
    requires Sound(cs, pages) && i < |cs| && cs[i].available && Listed(hs, first, cs) && Coalesce(cs, i).matched
    ensures cs[i].addr in hs
    ensures var (h, z) := ClimbHeaders(hs, cs[i].addr); Result(h, z, first, Coalesce(cs, i))
    decreases |cs|
  {
    LooksAt(hs, first, cs, i);
    if Turns(cs, i) {
      var lo, hi := Min(i, BuddyIndex(cs, i)), Max(i, BuddyIndex(cs, i));
      TurnAddrs(hs, first, cs, i);
      TurnListed(hs, first, cs, i);
      TurnedSound(cs, pages, i);
      ClimbListed(MergeHeaders(hs, cs[lo].addr, cs[hi].addr), first, Turned(cs, i), pages, lo);
    }
  }
}
