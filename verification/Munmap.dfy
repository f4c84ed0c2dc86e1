/** `sys_munmap` (sys_munmap.c): it frees the frame of every page it unmaps, also of those that stay mapped. */
module Munmap {
  import opened Options
  import opened Words
  import opened Paging
  import opened Cow
  import opened UserMap
  import opened AddressSpaces

  const TWO64 := 0x1_0000_0000_0000_0000

  /** Pages from the one that holds the address up to the one that holds the end, which stays. */
  function DropCount(addr: nat, len: nat): nat {
    var first, last := addr / 0x1000, (addr + len) % TWO64 / 0x1000;
    if first < last then last - first else 0
  }

  /** Without wrap-around, exactly the pages are dropped that end within the range, from the page that holds the
      address on: a first page that is only partly in the range goes, a last one stays. */
  lemma DropsWhole(addr: nat, len: nat, n: nat)
    requires addr + len < TWO64
    ensures var first := addr / 0x1000;
            first <= n < first + DropCount(addr, len) <==> first <= n && (n + 1) * 0x1000 <= addr + len
  {}

  /** A range that ends in the page in which it starts drops nothing: fewer than 4096 bytes from a page boundary,
      for one. */
  lemma ShortRange(addr: nat, len: nat)
    requires addr + len < TWO64
    ensures DropCount(addr, len) == 0 <==> addr % 0x1000 + len < 0x1000
  {}

  /** A range that goes past the end of the address space drops nothing. */
  lemma WrappedRange(addr: nat, len: nat)
    requires addr < TWO64 && len < TWO64 && addr + len >= TWO64
    ensures DropCount(addr, len) == 0
  {}

  /** `n` pages from `page` on unmapped, and the frames that are handed to `mem_kernel_free_page`. */
  function Dropped(s: Spaces, root: FrameNo, page: nat, n: nat): (Spaces, seq<FrameNo>) {
    if n == 0 then (s, [])
    else
      var (s0, freed) := Dropped(s, root, page, n - 1);
      var (s1, res) := Unmap(s0, root, PathOf(page + (n - 1)));
      (s1, if res.Kept? then freed + [res.frame] else freed)
  }

  lemma UnmapShape(s: Spaces, root: FrameNo, va: Path)
    requires TreeShape(s) && root in s.roots && |va| == 4
    ensures TreeShape(Unmap(s, root, va).0) && Unmap(s, root, va).0.roots == s.roots
  {
    if WalkTo(s.mem, root, Front(va)).Some? {
      WalkPlace(s.mem, s.place, root, Front(va));
      PutShape(s, WalkTo(s.mem, root, Front(va)).value, Last(va));
    }
  }

  lemma PutShape(s: Spaces, t: FrameNo, i: Idx)
    requires TreeShape(s) && t in s.place && |s.place[t]| == 3
    ensures TreeShape(s.(mem := Put(s.mem, t, i, ZERO)))
  {
    var m := Put(s.mem, t, i, ZERO);
    forall f, j: Idx | f in s.place && |s.place[f]| <= 3
      ensures At(m, f)[j].valid <==> At(m, f)[j].page
    {
      assert (f == t && i == j) || At(m, f)[j] == At(s.mem, f)[j];
    }
    forall f, j: Idx | f in s.place && |s.place[f]| <= 2
      ensures Linked(s.place, s.place[f], j, At(m, f)[j])
    {
      assert At(m, f)[j] == At(s.mem, f)[j];
    }
  }

  /** Other pages keep their entries. */
  lemma UnmapOther(s: Spaces, root: FrameNo, va: Path, q: Path)
    requires TreeShape(s) && root in s.roots && |va| == 4 && |q| == 4 && q != va
    ensures LeafAt(Unmap(s, root, va).0.mem, root, q) == LeafAt(s.mem, root, q)
  {
    UnmapFlat(s, root, va, root, Front(q));
    SnocIs(q, Front(va), Last(va));
    assert va == Front(va) + [Last(va)];
    if WalkTo(s.mem, root, Front(va)).Some? { WalkPlace(s.mem, s.place, root, Front(va)); }
    if WalkTo(s.mem, root, Front(q)).Some? { WalkPlace(s.mem, s.place, root, Front(q)); }
  }

  /** The page itself. */
  lemma UnmapSelf(s: Spaces, root: FrameNo, va: Path, w: Word)
    requires TreeShape(s) && root in s.roots && |va| == 4 && LeafAt(s.mem, root, va) == Some(w)
    ensures var (s', res) := Unmap(s, root, va);
            if w.refs > 0 then LeafAt(s'.mem, root, va).None? && res.Removed?
            else LeafAt(s'.mem, root, va) == Some(w) && res == Kept(w.frame)
  {
    UnmapFlat(s, root, va, root, va);
    UnmapFlat(s, root, va, root, Front(va));
  }

  lemma {:induction false} DroppedShape(s: Spaces, root: FrameNo, page: nat, n: nat)
    requires TreeShape(s) && root in s.roots
    ensures var s' := Dropped(s, root, page, n).0; TreeShape(s') && s'.roots == s.roots
  {
    if n > 0 {
      DroppedShape(s, root, page, n - 1);
      UnmapShape(Dropped(s, root, page, n - 1).0, root, PathOf(page + (n - 1)));
    }
  }

  lemma ModDiffers(x: nat, y: nat)
    requires x < y < x + PAGES
    ensures x % PAGES != y % PAGES
  {
    var a, b := x / PAGES, y / PAGES;
    assert y - x == (b - a) * PAGES + (y % PAGES - x % PAGES);
  }

  lemma PagesDiffer(page: nat, i: nat, j: nat)
    requires i < j < i + PAGES
    ensures PathOf(page + i) != PathOf(page + j)
  {
    PageOfPath(page + i);
    PageOfPath(page + j);
    ModDiffers(page + i, page + j);
  }

  /** What becomes of page `k` of `n`: with a counter above zero it is unmapped and its frame kept; otherwise its frame
      is freed, and the page stays mapped to it. */
  ghost predicate DroppedOk(s: Spaces, s': Spaces, freed: seq<FrameNo>, root: FrameNo, va: Path)
    requires |va| == 4
  {
    match LeafAt(s.mem, root, va)
    case None => LeafAt(s'.mem, root, va).None?
    case Some(w) =>
      if w.refs > 0 then LeafAt(s'.mem, root, va).None?
      else LeafAt(s'.mem, root, va) == Some(w) && w.frame in freed
  }

  /** The same for page `k` after the first `n` pages. */
  ghost predicate PageOk(s: Spaces, root: FrameNo, page: nat, n: nat, k: nat) {
    var (s', freed) := Dropped(s, root, page, n);
    if k < n then DroppedOk(s, s', freed, root, PathOf(page + k))
    else LeafAt(s'.mem, root, PathOf(page + k)) == LeafAt(s.mem, root, PathOf(page + k))
  }

  /** The next page changes nothing for the others. */
  lemma OthersOk(s: Spaces, s0: Spaces, freed: seq<FrameNo>, root: FrameNo, va: Path, q: Path)
    requires TreeShape(s0) && root in s0.roots && |va| == 4 && |q| == 4 && q != va
    ensures LeafAt(Unmap(s0, root, va).0.mem, root, q) == LeafAt(s0.mem, root, q)
    ensures DroppedOk(s, s0, freed, root, q) ==>
      && DroppedOk(s, Unmap(s0, root, va).0, freed, root, q)
      && forall f :: DroppedOk(s, Unmap(s0, root, va).0, freed + [f], root, q)
  {
    UnmapOther(s0, root, va, q);
  }

  lemma DropNext(s: Spaces, root: FrameNo, page: nat, n: nat, k: nat)
    requires root in s.roots && k != n && PathOf(page + k) != PathOf(page + n) && PageOk(s, root, page, n, k)
    requires TreeShape(Dropped(s, root, page, n).0) && Dropped(s, root, page, n).0.roots == s.roots
    ensures PageOk(s, root, page, n + 1, k)
  {
    var (s0, freed) := Dropped(s, root, page, n);
    OthersOk(s, s0, freed, root, PathOf(page + n), PathOf(page + k));
  }

  lemma {:induction false} DroppedPages(s: Spaces, root: FrameNo, page: nat, n: nat, k: nat)
    requires TreeShape(s) && root in s.roots && k < PAGES && n <= PAGES
    ensures PageOk(s, root, page, n, k)
  {
    if n == 0 {
      DropsNone(s, root, page, k);
    } else {
      var before: nat := n - 1;
      DroppedPages(s, root, page, before, k);
      DropStep(s, root, page, before, k);
    }
  }

  lemma DropsNone(s: Spaces, root: FrameNo, page: nat, k: nat)
    ensures PageOk(s, root, page, 0, k)
  {}

  /** One page more. */
  lemma DropStep(s: Spaces, root: FrameNo, page: nat, n: nat, k: nat)
    requires TreeShape(s) && root in s.roots && k < PAGES && n < PAGES && PageOk(s, root, page, n, k)
    ensures PageOk(s, root, page, n + 1, k)
  {
    DroppedShape(s, root, page, n);
    if k == n {
      DropLast(s, root, page, n + 1);
    } else {
      DropOther(s, root, page, n, k);
    }
  }

  lemma DropOther(s: Spaces, root: FrameNo, page: nat, n: nat, k: nat)
    requires root in s.roots && k != n && k < PAGES && n < PAGES && PageOk(s, root, page, n, k)
    requires TreeShape(Dropped(s, root, page, n).0) && Dropped(s, root, page, n).0.roots == s.roots
    ensures PageOk(s, root, page, n + 1, k)
  {
    if k < n { PagesDiffer(page, k, n); } else { PagesDiffer(page, n, k); }
    DropNext(s, root, page, n, k);
  }

  lemma DropLast(s: Spaces, root: FrameNo, page: nat, n: nat)
    requires n > 0 && root in s.roots && TreeShape(Dropped(s, root, page, n - 1).0)
    requires Dropped(s, root, page, n - 1).0.roots == s.roots
    requires PageOk(s, root, page, n - 1, n - 1)
    ensures PageOk(s, root, page, n, n - 1)
  {
    var va, s0 := PathOf(page + (n - 1)), Dropped(s, root, page, n - 1).0;
    match LeafAt(s0.mem, root, va)
    case None => LeafWalk(s0.mem, root, va);
    case Some(w) => UnmapSelf(s0, root, va, w);
  }

  /** Exactly the pages whose counter is zero are left leading to a frame that was freed. */
  lemma MunmapDangles(s: Spaces, root: FrameNo, page: nat, n: nat, k: nat)
    requires TreeShape(s) && root in s.roots && k < n <= PAGES
    ensures var (s', freed) := Dropped(s, root, page, n); var w := LeafAt(s.mem, root, PathOf(page + k));
            (w.Some? && w.value.refs == 0)
            <==> exists f :: f in freed && WalkTo(s'.mem, root, PathOf(page + k)) == Some(f)
  {
    var (s', freed) := Dropped(s, root, page, n);
    DroppedPages(s, root, page, n, k);
    LeafWalk(s'.mem, root, PathOf(page + k));
  }

  lemma DroppedNext(s: Spaces, root: FrameNo, page: nat, n: nat, va: Path)
    requires va == PathOf(page + n)
    ensures var (s0, freed) := Dropped(s, root, page, n); var (s1, res) := Unmap(s0, root, va);
            Dropped(s, root, page, n + 1) == (s1, if res.Kept? then freed + [res.frame] else freed)
  {}

  // ---------------------------------------------------------------- the call

  /** `mem_kernel_free_page` takes all of these frames, one after the other: the kernel has each of them, and none comes
      twice. */
  ghost predicate Freeable(freed: seq<FrameNo>, held: set<FrameNo>) {
    && (forall i :: 0 <= i < |freed| ==> freed[i] in held)
    && (forall i, j :: 0 <= i < j < |freed| ==> freed[i] != freed[j])
  }

  lemma {:induction false} DroppedPrefix(s: Spaces, root: FrameNo, page: nat, n: nat, n': nat)
    requires n <= n'
    ensures Dropped(s, root, page, n).1 <= Dropped(s, root, page, n').1
    decreases n'
  {
    if n < n' { DroppedPrefix(s, root, page, n, n' - 1); }
  }

  lemma FreeableFront(freed: seq<FrameNo>, all: seq<FrameNo>, held: set<FrameNo>)
    requires freed <= all && Freeable(all, held)
    ensures Freeable(freed, held)
  {
  }

  lemma NotFreeable(freed: seq<FrameNo>, f: FrameNo, held: set<FrameNo>)
    requires f !in held - (set g | g in freed)
    ensures !Freeable(freed + [f], held)
  {
    assert (freed + [f])[|freed|] == f;
    if f in held {
      var i :| 0 <= i < |freed| && freed[i] == f;
      assert (freed + [f])[i] == f;
    }
  }

  lemma FreedOne(freed: seq<FrameNo>, f: FrameNo, held: set<FrameNo>)
    requires Freeable(freed, held) && f in held - (set g | g in freed)
    ensures Freeable(freed + [f], held)
    ensures held - (set g | g in freed) - {f} == held - (set g | g in freed + [f])
  {
    assert forall g :: g in freed + [f] <==> g in freed || g == f;
  }

  /** What is true before page `start + n`. */
  ghost predicate Dropping(s0: Spaces, held: set<FrameNo>, root: FrameNo, start: nat, n: nat, s: Spaces, left: set<FrameNo>) {
    var (s', freed) := Dropped(s0, root, start, n);
    s == s' && Freeable(freed, held) && left == held - (set g | g in freed)
  }

  datatype MunmapResult = Invalid | Finished | Panicked

  /** `sys_munmap`; `held` are the frames the kernel has handed out and not taken back, `left` those it has afterwards. */
  method Munmap(t: UserTables, root: FrameNo, addr: nat, len: nat, held: set<FrameNo>)
    returns (res: MunmapResult, left: set<FrameNo>)
    requires TreeShape(t.S()) && root in t.roots && addr < TWO64 && len < TWO64
    modifies t`mem
    ensures res.Invalid? <==> len == 0
    ensures res.Invalid? ==> t.S() == old(t.S()) && left == held
    ensures len > 0 ==>
      (res.Panicked? <==> !Freeable(Dropped(old(t.S()), root, addr / 0x1000, DropCount(addr, len)).1, held))
    ensures res.Finished? ==> Dropping(old(t.S()), held, root, addr / 0x1000, DropCount(addr, len), t.S(), left)
  {
    left := held;
    if len == 0 {
      return Invalid, left;
    }
    var ok;
    ok, left := DropRange(t, root, addr / 0x1000, (addr + len) % TWO64 / 0x1000, held);
    return if ok then Finished else Panicked, left;
  }

  lemma NothingDropped(s: Spaces, held: set<FrameNo>, root: FrameNo, start: nat)
    ensures Dropping(s, held, root, start, 0, s, held)
  {
    assert held - {} == held;
  }

  /** The loop; not ok: the kernel panics. */
  method DropRange(t: UserTables, root: FrameNo, start: nat, end: nat, held: set<FrameNo>)
    returns (ok: bool, left: set<FrameNo>)
    requires TreeShape(t.S()) && root in t.roots
    modifies t`mem
    ensures var n := if start < end then end - start else 0;
            && (ok <==> Freeable(Dropped(old(t.S()), root, start, n).1, held))
            && (ok ==> Dropping(old(t.S()), held, root, start, n, t.S(), left))
  {
    ghost var s0 := t.S();
    left := held;
    NothingDropped(s0, held, root, start);
    var p := start;
    while p < end
      invariant start <= p && (p <= end || p == start)
      invariant Dropping(s0, held, root, start, p - start, t.S(), left)
    {
      ok, left := DropPage(t, root, p, left, s0, held, start);
      if !ok {
        StopsAll(s0, root, start, p + 1 - start, end - start, held);
        return false, left;
      }
      p := p + 1;
    }
    return true, left;
  }

  lemma StopsAll(s: Spaces, root: FrameNo, page: nat, n: nat, n': nat, held: set<FrameNo>)
    requires n <= n' && !Freeable(Dropped(s, root, page, n).1, held)
    ensures !Freeable(Dropped(s, root, page, n').1, held)
  {
    DroppedPrefix(s, root, page, n, n');
    if Freeable(Dropped(s, root, page, n').1, held) {
      FreeableFront(Dropped(s, root, page, n).1, Dropped(s, root, page, n').1, held);
    }
  }

  /** One turn of the loop; not ok: the kernel panics. */
  method DropPage(t: UserTables, root: FrameNo, p: nat, left: set<FrameNo>, ghost s0: Spaces, ghost held: set<FrameNo>,
                  ghost start: nat) returns (ok: bool, left': set<FrameNo>)
    requires TreeShape(s0) && root in s0.roots && start <= p && Dropping(s0, held, root, start, p - start, t.S(), left)
    modifies t`mem
    ensures ok ==> Dropping(s0, held, root, start, p + 1 - start, t.S(), left')
    ensures !ok ==> !Freeable(Dropped(s0, root, start, p + 1 - start).1, held)
  {
    DroppedShape(s0, root, start, p - start);
    DroppedNext(s0, root, start, p - start, PathOf(p));
    ghost var freed := Dropped(s0, root, start, p - start).1;
    var res := t.UnmapPage(root, PathOf(p));
    if !res.Kept? {
      return true, left;
    }
    if res.frame !in left {
      NotFreeable(freed, res.frame, held);
      return false, left;
    }
    FreedOne(freed, res.frame, held);
    return true, left - {res.frame};
  }

  /** A page that was mapped a moment ago, unmapped: its frame is freed, and the page still leads to it. */
  lemma FreshPageDangles(s: Spaces, root: FrameNo, page: nat, frame: FrameNo, perm: Perm, attr: Attr)
    requires TreeShape(s) && root in s.roots && perm != NoPerm
    requires MapBelow(s, root, PathOf(page), LeafWord(frame, perm, attr)).Mapped?
    ensures var (s', freed) := Dropped(MapBelow(s, root, PathOf(page), LeafWord(frame, perm, attr)).s, root, page, 1);
            freed == [frame] && WalkTo(s'.mem, root, PathOf(page)) == Some(frame)
  {
    var va, leaf := PathOf(page), LeafWord(frame, perm, attr);
    var s1 := MapBelow(s, root, va, leaf).s;
    MapPageFlat(s, root, va, leaf, root, va);
    DropsOne(s1, root, page, leaf);
    LeafWalk(Dropped(s1, root, page, 1).0.mem, root, va);
  }

  /** Unmapping a fresh page a second time makes the kernel panic: the page is still mapped, and its frame is not held any
      more. */
  lemma SecondTimePanics(s: Spaces, root: FrameNo, page: nat, frame: FrameNo, perm: Perm, attr: Attr, held: set<FrameNo>)
    requires TreeShape(s) && root in s.roots && perm != NoPerm
    requires MapBelow(s, root, PathOf(page), LeafWord(frame, perm, attr)).Mapped?
    ensures var (s', freed) := Dropped(MapBelow(s, root, PathOf(page), LeafWord(frame, perm, attr)).s, root, page, 1);
            !Freeable(Dropped(s', root, page, 1).1, held - (set g | g in freed))
  {
    var va, leaf := PathOf(page), LeafWord(frame, perm, attr);
    var s1 := MapBelow(s, root, va, leaf).s;
    MapPageFlat(s, root, va, leaf, root, va);
    DropsTwice(s1, root, page, leaf);
    NotFreeable([], frame, held - {frame});
    assert [] + [frame] == [frame] && (set g | g in [frame]) == {frame};
  }

  lemma DropsTwice(s: Spaces, root: FrameNo, page: nat, leaf: Word)
    requires TreeShape(s) && root in s.roots && leaf.refs == 0 && LeafAt(s.mem, root, PathOf(page)) == Some(leaf)
    ensures var (s', freed) := Dropped(s, root, page, 1);
            freed == [leaf.frame] && Dropped(s', root, page, 1).1 == [leaf.frame]
  {
    DropsOne(s, root, page, leaf);
    DroppedShape(s, root, page, 1);
    DropsOne(Dropped(s, root, page, 1).0, root, page, leaf);
  }

  /** One page that counts nobody. */
  lemma DropsOne(s: Spaces, root: FrameNo, page: nat, leaf: Word)
    requires TreeShape(s) && root in s.roots && leaf.refs == 0 && LeafAt(s.mem, root, PathOf(page)) == Some(leaf)
    ensures var (s', freed) := Dropped(s, root, page, 1);
            freed == [leaf.frame] && LeafAt(s'.mem, root, PathOf(page)) == Some(leaf)
  {
    assert Dropped(s, root, page, 0) == (s, []);
    UnmapSelf(s, root, PathOf(page), leaf);
    DroppedNext(s, root, page, 0, PathOf(page));
  }
}
