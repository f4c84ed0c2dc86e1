/** Anonymous mappings (`_map_anonymous` in sys_mmap.c; `_buffer_alloc` in msgbuf.c runs the same
    loop): a vacant run of pages is found and filled with fresh frames, one page at a time. */
module Mmap {
  import opened Options
  import opened Words
  import opened Paging
  import opened Cow
  import opened UserMap
  import opened AddressSpaces
  import opened VacantRuns

  const TWO64 := 0x1_0000_0000_0000_0000

  /** First page to try: the address rounded up, in 64 bits, or 0x200000 if there is none. */
  function FirstPage(addr: nat): nat {
    if addr == 0 then 0x200 else (addr + 0xfff) % TWO64 / 0x1000
  }

  /** `MEM_SIZE_TO_PAGES` */
  function PageCount(len: nat): nat { (len + 0xfff) % TWO64 / 0x1000 }

  /** The pages are just enough for the bytes, but for lengths that wrap around: these get no page at all. */
  lemma PagesHold(len: nat)
    ensures 0 < len <= TWO64 - 0x1000 ==> 0x1000 * (PageCount(len) - 1) < len <= 0x1000 * PageCount(len)
    ensures len < TWO64 ==> (PageCount(len) == 0 <==> len == 0 || len > TWO64 - 0x1000)
  {}

  /** The first page tried is the least one at or above the address that is asked for. */
  lemma FirstAtOrAbove(addr: nat)
    requires addr < TWO64
    ensures addr == 0 ==> FirstPage(addr) * 0x1000 == 0x20_0000
    ensures 0 < addr <= TWO64 - 0x1000 ==> FirstPage(addr) * 0x1000 - 0x1000 < addr <= FirstPage(addr) * 0x1000
    ensures addr > TWO64 - 0x1000 ==> FirstPage(addr) == 0
  {}

  /** How many pages after `page` the virtual page `q` lies, going round at 2^36. */
  function Offset(page: nat, q: Path): (k: nat)
    requires |q| == 4
    ensures k < PAGES
  {
    (PageOf(q) - page) % PAGES
  }

  /** `va` is the page `k` pages after `page`. */
  ghost predicate IsAt(va: Path, page: nat, k: nat) {
    |va| == 4 && forall q: Path :: |q| == 4 ==> (Offset(page, q) == k <==> q == va)
  }

  lemma PathIsAt(page: nat, k: nat)
    requires k < PAGES
    ensures IsAt(PathOf(page + k), page, k)
  {
    PageOfPath(page + k);
    IsAtNumber(PathOf(page + k), page, k);
  }

  lemma IsAtNumber(va: Path, page: nat, k: nat)
    requires |va| == 4 && PageOf(va) == (page + k) % PAGES && k < PAGES
    ensures IsAt(va, page, k)
  {
    forall q: Path | |q| == 4
      ensures Offset(page, q) == k <==> q == va
    {
      PathOfPage(q);
      ModShift(PageOf(q), page, k);
      if PageOf(q) == PageOf(va) {
        PageOfInjective(q, va);
      }
    }
  }

  lemma ModShift(n: nat, page: nat, k: nat)
    requires n < PAGES && k < PAGES
    ensures (n - page) % PAGES == k <==> n == (page + k) % PAGES
  {
    var d, e := (n - page) / PAGES, (page + k) / PAGES;
    assert n - page == d * PAGES + (n - page) % PAGES;
    assert page + k == e * PAGES + (page + k) % PAGES;
  }

  /** The leaf of `q` once `frames` have been mapped from `page` on. */
  function Expected(m0: Mem, root: FrameNo, page: nat, frames: seq<FrameNo>, perm: Perm, q: Path): Option<Word>
    requires perm != NoPerm && |q| == 4
  {
    if Offset(page, q) < |frames| then Some(LeafWord(frames[Offset(page, q)], perm, MemNorm))
    else LeafAt(m0, root, q)
  }

  /** Pages `page`, `page + 1`, ... hold `frames`, all other pages hold what they held in `m0`. */
  ghost predicate Filled(m0: Mem, m: Mem, root: FrameNo, page: nat, frames: seq<FrameNo>, perm: Perm)
    requires perm != NoPerm
  {
    forall q: Path :: |q| == 4 ==> LeafAt(m, root, q) == Expected(m0, root, page, frames, perm, q)
  }

  /** The frames were not in use and are all different. */
  ghost predicate Fresh(m0: Mem, frames: seq<FrameNo>) {
    && (forall f :: f in frames ==> f !in m0)
    && (forall i, j :: 0 <= i < j < |frames| ==> frames[i] != frames[j])
  }

  lemma AllocatedLeaf(s: Spaces, contents: Page, root: FrameNo, q: Path)
    requires TreeShape(s) && s.avail != [] && root in s.roots && |q| == 4
    ensures LeafAt(Allocated(s, contents).mem, root, q) == LeafAt(s.mem, root, q)
  {
    AllocatedShape(s, contents);
    SameLinksWalk(s, Allocated(s, contents).mem, root, Front(q));
    if WalkTo(s.mem, root, Front(q)).Some? {
      WalkPlace(s.mem, s.place, root, Front(q));
    }
  }

  /** One more page. */
  lemma FillOne(m0: Mem, s: Spaces, root: FrameNo, page: nat, frames: seq<FrameNo>, perm: Perm, f: FrameNo, va: Path)
    requires TreeShape(s) && root in s.roots && perm != NoPerm && IsAt(va, page, |frames|)
    requires Filled(m0, s.mem, root, page, frames, perm) && LeafAt(m0, root, va).None?
    ensures var out := MapBelow(s, root, va, LeafWord(f, perm, MemNorm));
            && !out.Exists?
            && (out.Mapped? ==>
                  TreeShape(out.s) && out.s.roots == s.roots && Filled(m0, out.s.mem, root, page, frames + [f], perm))
  {
    var leaf := LeafWord(f, perm, MemNorm);
    LeafWalk(s.mem, root, va);
    MapPageFlat(s, root, va, leaf, root, va);
    forall q: Path | |q| == 4
      ensures MapBelow(s, root, va, leaf).Mapped? ==>
        LeafAt(MapBelow(s, root, va, leaf).s.mem, root, q) == Expected(m0, root, page, frames + [f], perm, q)
    {
      MapPageFlat(s, root, va, leaf, root, q);
    }
  }

  /** Memory runs out during one mapping only if at most two frames were left. */
  lemma {:induction false} OutOfMemoryCount(s: Spaces, t: FrameNo, rest: Path, leaf: Word)
    requires t in s.place && rest != []
    requires MapBelow(s, t, rest, leaf).OutOfMemory?
    ensures |s.avail| <= |rest| - 2
    decreases |rest|
  {
    var w := At(s.mem, t)[rest[0]];
    if |rest| > 1 && w.valid && w.frame in s.place {
      OutOfMemoryCount(s, w.frame, rest[1..], leaf);
    } else if |rest| > 1 && !w.valid && s.avail != [] {
      OutOfMemoryCount(Grafted(s, t, rest[0]), s.avail[0], rest[1..], leaf);
    }
  }

  lemma {:induction false} FramesStay(s: Spaces, t: FrameNo, rest: Path, leaf: Word)
    requires t in s.place && t in s.mem && rest != [] && MapBelow(s, t, rest, leaf).Mapped?
    requires forall f :: f in s.place ==> f in s.mem
    ensures s.mem.Keys <= MapBelow(s, t, rest, leaf).s.mem.Keys
    decreases |rest|
  {
    var w := At(s.mem, t)[rest[0]];
    if |rest| > 1 {
      if w.valid {
        FramesStay(s, w.frame, rest[1..], leaf);
      } else {
        FramesStay(Grafted(s, t, rest[0]), s.avail[0], rest[1..], leaf);
      }
    }
  }

  ghost function Below(n: nat): (s: set<int>)
    ensures |s| == n && forall x :: x in s <==> 0 <= x < n
  {
    if n == 0 then {} else Below(n - 1) + {n - 1}
  }

  /** There are only 2^36 frame numbers. */
  lemma FewFrames(m0: Mem, root: FrameNo, frames: seq<FrameNo>)
    requires root in m0 && Fresh(m0, frames)
    ensures |frames| < PAGES
  {
    var all: set<int> := set k: nat | k < |frames| :: frames[k] as int;
    DistinctSize(frames, |frames|);
    SubsetSize(all + {root}, Below(PAGES));
    SmallerSet(all + {root}, root);
    assert all + {root} - {root} == all;
  }

  lemma {:induction false} DistinctSize(frames: seq<FrameNo>, n: nat)
    requires n <= |frames| && forall i, j :: 0 <= i < j < |frames| ==> frames[i] != frames[j]
    ensures |set k: nat | k < n :: frames[k] as int| == n
  {
    if n > 0 {
      DistinctSize(frames, n - 1);
      var less := set k: nat | k < n - 1 :: frames[k] as int;
      assert (set k: nat | k < n :: frames[k] as int) == less + {frames[n - 1] as int};
    }
  }

  /** Every byte of the `len` bytes from page `page` on is in one of the frames, with the rights of `perm`. */
  ghost predicate BytesMapped(m: Mem, root: FrameNo, page: nat, frames: seq<FrameNo>, perm: Perm, len: nat) {
    forall a: nat :: page * 0x1000 <= a < page * 0x1000 + len ==> ByteMapped(m, root, page, frames, perm, a)
  }

  ghost predicate ByteMapped(m: Mem, root: FrameNo, page: nat, frames: seq<FrameNo>, perm: Perm, a: nat) {
    var k := a / 0x1000 - page;
    0 <= k < |frames| && MappedAs(m, root, PathOf(a / 0x1000), frames[k], perm, MemNorm)
  }

  lemma FilledBytes(m0: Mem, m: Mem, root: FrameNo, page: nat, frames: seq<FrameNo>, perm: Perm, len: nat)
    requires root in m0 && Fresh(m0, frames) && perm != NoPerm && Filled(m0, m, root, page, frames, perm)
    requires len <= 0x1000 * |frames|
    ensures BytesMapped(m, root, page, frames, perm, len)
  {
    FewFrames(m0, root, frames);
    forall a: nat | page * 0x1000 <= a < page * 0x1000 + len
      ensures ByteMapped(m, root, page, frames, perm, a)
    {
      var k: nat := a / 0x1000 - page;
      PathIsAt(page, k);
      assert LeafAt(m, root, PathOf(page + k)) == Some(LeafWord(frames[k], perm, MemNorm));
      LeafRights(frames[k], perm, MemNorm);
    }
  }

  datatype MmapResult = MappedAt(page: nat) | NoMem | Searching

  /** What the loop keeps. */
  ghost predicate Filling(t: UserTables, root: FrameNo, m0: Mem, page: nat, frames: seq<FrameNo>, perm: Perm)
    requires perm != NoPerm
    reads t
  {
    && TreeShape(t.S()) && root in t.roots && Filled(m0, t.mem, root, page, frames, perm)
    && m0.Keys <= t.mem.Keys && Fresh(m0, frames) && forall f :: f in frames ==> f in t.mem
  }

  method MapFrame(t: UserTables, root: FrameNo, va: Path, perm: Perm, f: FrameNo,
                  ghost m0: Mem, ghost page: nat, ghost frames: seq<FrameNo>)
    returns (ok: bool)
    requires perm != NoPerm && Filling(t, root, m0, page, frames, perm)
    requires IsAt(va, page, |frames|) && LeafAt(m0, root, va).None?
    requires f in t.mem && f !in m0 && f !in frames
    modifies t
    ensures !ok ==> |t.avail| <= 2
    ensures ok ==> Filling(t, root, m0, page, frames + [f], perm)
  {
    ghost var s, leaf := t.S(), LeafWord(f, perm, MemNorm);
    FillOne(m0, s, root, page, frames, perm, f, va);
    var err := t.MapPage(root, va, f, perm, MemNorm);
    if err != ErrOk {
      OutOfMemoryCount(s, root, va, leaf);
      assert |multiset(t.avail)| == |multiset(s.avail)|;
      return false;
    }
    FramesStay(s, root, va, leaf);
    return true;
  }

  /** One turn of the loop: a fresh frame is mapped at the next page. */
  method MapNext(t: UserTables, root: FrameNo, va: Path, perm: Perm, ghost m0: Mem, ghost page: nat, ghost frames: seq<FrameNo>)
    returns (frame: Option<FrameNo>)
    requires perm != NoPerm && Filling(t, root, m0, page, frames, perm)
    requires IsAt(va, page, |frames|) && LeafAt(m0, root, va).None?
    modifies t
    ensures frame.None? ==> |t.avail| <= 2
    ensures frame.Some? ==> Filling(t, root, m0, page, frames + [frame.value], perm)
  {
    ghost var s := t.S();
    frame := t.AllocPage();
    if frame.None? {
      return;
    }
    AllocatedFilled(m0, s, t.mem[frame.value], root, page, frames, perm);
    var ok := MapFrame(t, root, va, perm, frame.value, m0, page, frames);
    if !ok {
      return None;
    }
  }

  lemma AllocatedFilled(m0: Mem, s: Spaces, contents: Page, root: FrameNo, page: nat, frames: seq<FrameNo>, perm: Perm)
    requires TreeShape(s) && root in s.roots && s.avail != [] && perm != NoPerm
    requires Filled(m0, s.mem, root, page, frames, perm)
    ensures TreeShape(Allocated(s, contents)) && Filled(m0, Allocated(s, contents).mem, root, page, frames, perm)
  {
    AllocatedShape(s, contents);
    forall q: Path | |q| == 4
      ensures LeafAt(Allocated(s, contents).mem, root, q) == LeafAt(s.mem, root, q)
    {
      AllocatedLeaf(s, contents, root, q);
    }
  }

  /** `_map_anonymous`, with at most `turns` turns of the search.  Once a vacant run is found, no page of it is
      mapped already when its turn comes: the call fails because memory runs out, or because the run begins at
      address 0.  With 2^36 turns the search goes on if and only if the number of pages does not fit. */
  method MapAnonymous(t: UserTables, root: FrameNo, addr: nat, len: nat, perm: Perm, turns: nat)
    returns (res: MmapResult, ghost frames: seq<FrameNo>, ghost advance: nat)
    requires TreeShape(t.S()) && root in t.roots && perm != NoPerm && addr < TWO64
    modifies t
    ensures res.MappedAt? && 0 < len <= TWO64 - 0x1000 ==>
      && 0x1000 * (|frames| - 1) < len <= 0x1000 * |frames|
      && BytesMapped(t.mem, root, res.page, frames, perm, len)
    ensures !res.Searching? ==> FirstVacant(old(t.mem), root, FirstPage(addr), PageCount(len), advance)
    ensures res.MappedAt? ==>
      && res.page == (FirstPage(addr) + advance) % ADDRESSES && |frames| == PageCount(len) && TreeShape(t.S())
      && Fresh(old(t.mem), frames) && Filled(old(t.mem), t.mem, root, res.page, frames, perm)
    ensures res.NoMem? ==> |t.avail| <= 2 || (FirstPage(addr) + advance) % ADDRESSES == 0
    ensures res.Searching? ==>
      && t.S() == old(t.S()) && advance >= turns
      && NoVacantBefore(old(t.mem), root, FirstPage(addr), PageCount(len), advance)
    ensures turns >= PAGES ==> (res.Searching? <==> !Fits(old(t.mem), root, PageCount(len)))
  {
    var count := PageCount(len);
    ghost var start := FirstPage(addr);
    var found, ahead := t.FindEmpty(root, FirstPage(addr), count, turns);
    advance, frames := ahead, [];
    SearchEnds(t.mem, root, start, count, turns, advance, found.Some?);
    if found.None? {
      return Searching, [], advance;
    }
    var page := found.value;
    if page == 0 {
      return NoMem, [], advance;
    }
    AddressVacant(t.mem, root, start + advance, count);
    var ok: bool;
    ok, frames := FillRun(t, root, page, count, perm);
    PagesHold(len);
    if ok && 0 < len <= TWO64 - 0x1000 { FilledBytes(old(t.mem), t.mem, root, page, frames, perm, len); }
    res := if ok then MappedAt(page) else NoMem;
  }

  /** The search ends within 2^36 turns, or never. */
  lemma SearchEnds(m: Mem, root: FrameNo, start: nat, count: nat, turns: nat, advance: nat, found: bool)
    requires NoVacantBefore(m, root, start, count, advance)
    requires if found then Vacant(m, root, start + advance, count) else advance >= turns
    ensures turns >= PAGES ==> (found <==> Fits(m, root, count))
  {
    if found {
      VacantFits(m, root, count, start + advance);
    } else if turns >= PAGES && Fits(m, root, count) {
      var p := VacantAhead(m, root, count, start);
    }
  }

  lemma AddressVacant(m: Mem, root: FrameNo, page: nat, count: nat)
    requires Vacant(m, root, page, count)
    ensures Vacant(m, root, page % ADDRESSES, count)
  {
    ModShifted(page % ADDRESSES, page, page / ADDRESSES * 0x1_0000);
    VacantSame(m, root, page, page % ADDRESSES, count);
  }

  /** The loop of `_map_anonymous`. */
  method FillRun(t: UserTables, root: FrameNo, page: nat, count: nat, perm: Perm)
    returns (ok: bool, ghost frames: seq<FrameNo>)
    requires TreeShape(t.S()) && root in t.roots && perm != NoPerm && Vacant(t.mem, root, page, count)
    modifies t
    ensures ok ==>
      && |frames| == count && TreeShape(t.S()) && Fresh(old(t.mem), frames)
      && Filled(old(t.mem), t.mem, root, page, frames, perm)
    ensures !ok ==> |t.avail| <= 2
  {
    frames := [];
    ghost var m0 := t.mem;
    var i := 0;
    while i < count
      invariant 0 <= i <= count && |frames| == i && root in m0
      invariant Filling(t, root, m0, page, frames, perm)
    {
      assert Unused(m0, root, page + i);
      FewFrames(m0, root, frames);
      PathIsAt(page, i);
      LeafWalk(m0, root, PathOf(page + i));
      var frame := MapNext(t, root, PathOf(page + i), perm, m0, page, frames);
      if frame.None? {
        return false, frames;
      }
      frames := frames + [frame.value];
      i := i + 1;
    }
    ok := true;
  }

  /** The input for which `sys_mmap` does not return: 2^48 bytes or more, once any page is mapped. */
  lemma HugeMmapNeverReturns(m: Mem, root: FrameNo, page: nat, addr: nat, len: nat)
    requires !Unused(m, root, page) && 0x1_0000_0000_0000 <= len <= TWO64 - 0x1000
    ensures forall p: nat :: p >= FirstPage(addr) ==> !Vacant(m, root, p, PageCount(len))
  {
    TooMany(m, root, page, PageCount(len));
    NeverFoundIff(m, root, PageCount(len), FirstPage(addr));
  }
}
