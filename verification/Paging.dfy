/** Physical memory and the four-level table walk (mem.h, mmu.c, chapter D8 of the Arm
    Architecture Reference Manual: 4 KiB granule, 48-bit addresses).

    Memory is a map from the page frames the kernel has handed out to their 512 words.
    A table and a page of data are both 512 words.  A virtual page is named by its path,
    the four table indices of its address. */
module Paging {
  import opened Options
  import opened Words

  /** The members of `enum kern_err` that memory management returns. */
  datatype Err = ErrOk | ErrFlg | ErrExs | ErrOom | ErrUnm

  function Blank(n: nat): (s: seq<Word>)
    ensures |s| == n && forall i :: 0 <= i < n ==> s[i] == ZERO
  {
    if n == 0 then [] else Blank(n - 1) + [ZERO]
  }

  type Page = p: seq<Word> | |p| == 512 witness Blank(512)
  type Mem = map<FrameNo, Page>
  /** Index into a table. */
  type Idx = i: nat | i < 512

  /** The table indices of a virtual page, or the first few of them. */
  type Path = seq<Idx>

  function Front(p: Path): Path
    requires p != []
  {
    p[..|p| - 1]
  }

  function Last(p: Path): Idx
    requires p != []
  {
    p[|p| - 1]
  }

  lemma SnocIs(q: Path, p: Path, i: Idx)
    requires q != []
    ensures q == p + [i] <==> Front(q) == p && Last(q) == i
  {
    assert q == Front(q) + [Last(q)];
  }

  /** The first step of `rest` taken. */
  lemma Shifted(p: Path, rest: Path)
    requires rest != []
    ensures p + rest == (p + [rest[0]]) + rest[1..]
  {}

  /** A frame's words; a frame that was never handed out reads as blank. */
  function At(m: Mem, f: FrameNo): Page {
    if f in m then m[f] else Blank(512)
  }

  function Put(m: Mem, f: FrameNo, i: Idx, w: Word): Mem
  {
    m[f := At(m, f)[i := w]]
  }

  /** One step of the walk: the frame entry `i` of table `t` points to. */
  function Next(m: Mem, t: FrameNo, i: Idx): Option<FrameNo> {
    if At(m, t)[i].valid then Some(At(m, t)[i].frame) else None
  }

  /** The table or page found by following `p` from `root`. */
  function WalkTo(m: Mem, root: FrameNo, p: Path): Option<FrameNo> {
    if p == [] then Some(root)
    else match WalkTo(m, root, Front(p))
      case None => None
      case Some(t) => Next(m, t, Last(p))
  }

  /** What a process with top-level table `root` reads in the virtual page `p`. */
  function PageAt(m: Mem, root: FrameNo, p: Path): Option<Page> {
    match WalkTo(m, root, p)
    case None => None
    case Some(f) => Some(At(m, f))
  }

  /** The leaf descriptor of the virtual page `p`, if the page is mapped. */
  function LeafAt(m: Mem, root: FrameNo, p: Path): Option<Word>
    requires p != []
  {
    match WalkTo(m, root, Front(p))
    case None => None
    case Some(t) => if At(m, t)[Last(p)].valid then Some(At(m, t)[Last(p)]) else None
  }

  lemma LeafWalk(m: Mem, root: FrameNo, p: Path)
    requires p != []
    ensures WalkTo(m, root, p) == match LeafAt(m, root, p) { case None => None case Some(w) => Some(w.frame) }
  {}

  lemma WalkStep(m: Mem, root: FrameNo, p: Path, i: Idx)
    ensures WalkTo(m, root, p + [i]) ==
            match WalkTo(m, root, p) { case None => None case Some(t) => Next(m, t, i) }
  {
    assert Front(p + [i]) == p;
  }

  lemma {:induction false} WalkPrefix(m: Mem, root: FrameNo, p: Path, q: Path)
    requires p <= q && WalkTo(m, root, q).Some?
    ensures WalkTo(m, root, p).Some?
    decreases |q|
  {
    if p != q {
      assert p <= Front(q);
      WalkPrefix(m, root, p, Front(q));
    }
  }

  // ---------------------------------------------------------------- tree shape

  /** Where each frame hangs: the one path that leads to it, from whichever root. */
  type Places = map<FrameNo, Path>

  /** Entry `i` of a table at `p` leads to a frame placed one step further. */
  ghost predicate Linked(place: Places, p: Path, i: Idx, w: Word) {
    w.valid ==> w.frame in place && place[w.frame] == p + [i]
  }

  /** Tables form trees without aliases and without block descriptors. */
  ghost predicate Tables(m: Mem, place: Places) {
    && (forall f :: f in place ==> f in m && |place[f]| <= 4)
    && (forall f, i: Idx :: f in place && |place[f]| <= 3 ==>
          (At(m, f)[i].valid <==> At(m, f)[i].page))
    && (forall f, i: Idx :: f in place && |place[f]| <= 2 ==>
          Linked(place, place[f], i, At(m, f)[i]))
  }

  /** Likewise for the pages the last-level tables point to. */
  ghost predicate Leaves(m: Mem, place: Places) {
    forall f, i: Idx :: f in place && |place[f]| == 3 ==>
      Linked(place, place[f], i, At(m, f)[i])
  }

  /** A walk only ends where the places say. */
  lemma {:induction false} WalkPlace(m: Mem, place: Places, root: FrameNo, p: Path)
    requires Tables(m, place) && root in place && place[root] == []
    requires |p| <= 3 || (|p| == 4 && Leaves(m, place))
    requires WalkTo(m, root, p).Some?
    ensures WalkTo(m, root, p).value in place && place[WalkTo(m, root, p).value] == p
  {
    if p != [] {
      WalkPlace(m, place, root, Front(p));
      assert p == Front(p) + [Last(p)];
    }
  }

  // ---------------------------------------------------------------- address spaces

  /** All address spaces of the machine: memory, the top-level tables in use, where each
      frame hangs, and the frames the page allocator will hand out next. */
  datatype Spaces = Spaces(mem: Mem, roots: set<FrameNo>, place: Places, avail: seq<FrameNo>)

  ghost predicate TreeShape(s: Spaces) {
    && Tables(s.mem, s.place)
    && (forall r :: r in s.roots ==> r in s.place && s.place[r] == [])
    && (forall f :: f in s.avail ==> f !in s.mem)
    && (forall i, j :: 0 <= i < j < |s.avail| ==> s.avail[i] != s.avail[j])
  }

  /** Tables whose entries lead where they led before. */
  ghost predicate SameLinks(s: Spaces, m: Mem) {
    forall f, i: Idx :: f in s.place && |s.place[f]| <= 3 ==>
      var w, w' := At(s.mem, f)[i], At(m, f)[i];
      w'.valid == w.valid && w'.page == w.page && w'.frame == w.frame
  }

  lemma {:induction false} SameLinksWalk(s: Spaces, m: Mem, r: FrameNo, q: Path)
    requires TreeShape(s) && SameLinks(s, m) && r in s.roots && |q| <= 4
    ensures WalkTo(m, r, q) == WalkTo(s.mem, r, q)
  {
    if q != [] {
      SameLinksWalk(s, m, r, Front(q));
      if WalkTo(s.mem, r, Front(q)).Some? {
        WalkPlace(s.mem, s.place, r, Front(q));
      }
    }
  }
}
