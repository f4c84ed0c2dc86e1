/** What mapping and unmapping one page means (`mem_user_map_page`, `mem_user_unmap_page`,
    `mem_user_find_empty` in mem.c): the four-level tables behave like a flat map from
    36-bit page numbers to frames. */
module UserMap {
  import opened Options
  import opened Words
  import opened Paging
  import opened Cow

  // ---------------------------------------------------------------- page numbers

  /** `mmu_get_table_idx` on page numbers; addresses differing above bit 47 have the same indices. */
  function PathOf(page: nat): (p: Path)
    ensures |p| == 4
  {
    [page / 0x800_0000 % 512, page / 0x4_0000 % 512, page / 512 % 512, page % 512]
  }

  function PageOf(p: Path): nat
    requires |p| == 4
  {
    var a: nat, b: nat, c: nat, d: nat := p[0], p[1], p[2], p[3];
    a * 0x800_0000 + b * 0x4_0000 + c * 512 + d
  }

  lemma PathOfPage(p: Path)
    requires |p| == 4
    ensures PathOf(PageOf(p)) == p && PageOf(p) < 0x10_0000_0000
  {
    Digits(p[0], p[1], p[2], p[3]);
  }

  lemma Digits(a: Idx, b: Idx, c: Idx, d: Idx)
    ensures var n := PageOf([a, b, c, d]);
            n % 512 == d && n / 512 % 512 == c && n / 0x4_0000 % 512 == b && n / 0x800_0000 % 512 == a
  {
    var n: nat := PageOf([a, b, c, d]);
    Quotient(n, 0x4_0000 * a + 512 * b + c, d);
    var n1: nat := 0x4_0000 * a + 512 * b + c;
    Quotient(n1, 512 * a + b, c);
    var n2: nat := 512 * a + b;
    Quotient(n2, a, b);
    assert n / 0x4_0000 == n2;
    assert n / 0x800_0000 == a;
  }

  lemma Quotient(n: nat, q: nat, r: Idx)
    requires n == 512 * q + r
    ensures n / 512 == q && n % 512 == r
  {}

  lemma PageOfPath(page: nat)
    ensures PageOf(PathOf(page)) == page % 0x10_0000_0000
  {
    var a, b, c, d := page / 0x800_0000 % 512, page / 0x4_0000 % 512, page / 512 % 512, page % 512;
    var hi := page / 0x10_0000_0000;
    assert page / 0x800_0000 == hi * 512 + a;
    assert page / 0x4_0000 == page / 0x800_0000 * 512 + b;
    assert page / 512 == page / 0x4_0000 * 512 + c;
    assert page == page / 512 * 512 + d;
  }

  lemma PageOfInjective(p: Path, q: Path)
    requires |p| == 4 && |q| == 4 && PageOf(p) == PageOf(q)
    ensures p == q
  {
    PathOfPage(p);
    PathOfPage(q);
  }

  /** How many pages the indices tell apart, and how many a 64-bit address does. */
  const PAGES: nat := 0x10_0000_0000
  const ADDRESSES: nat := 0x10_0000_0000_0000

  lemma ModShifted(n: nat, n': nat, q: int)
    requires n' == n + q * PAGES
    ensures n % PAGES == n' % PAGES
  {
    var a, b := n / PAGES, n' / PAGES;
    assert n' % PAGES - n % PAGES == (q + a - b) * PAGES;
  }

  /** Page numbers that differ by a multiple of 2^36 have the same indices. */
  lemma PathOfSame(page: nat, page': nat)
    requires page % PAGES == page' % PAGES
    ensures PathOf(page) == PathOf(page')
  {
    PageOfPath(page);
    PageOfPath(page');
    PageOfInjective(PathOf(page), PathOf(page'));
  }

  // ---------------------------------------------------------------- mapping a page

  datatype MapResult = Mapped(s: Spaces) | Exists(s: Spaces) | OutOfMemory(s: Spaces)

  /** A blank table linked at entry `i` of `t`. */
  function Grafted(s: Spaces, t: FrameNo, i: Idx): Spaces
    requires t in s.place && s.avail != []
  {
    var n := s.avail[0];
    Spaces(Put(s.mem[n := Blank(512)], t, i, TableWord(n)), s.roots, s.place[n := s.place[t] + [i]], s.avail[1..])
  }

  /** `mem_user_map_page` from table `t` downwards, before anything is given back. */
  function MapBelow(s: Spaces, t: FrameNo, rest: Path, leaf: Word): MapResult
    requires rest != [] && t in s.place
    decreases |rest|
  {
    var w := At(s.mem, t)[rest[0]];
    if |rest| == 1 then
      if w.valid then Exists(s) else Mapped(s.(mem := Put(s.mem, t, rest[0], leaf)))
    else if w.valid then
      if w.frame in s.place then MapBelow(s, w.frame, rest[1..], leaf) else Exists(s)
    else if s.avail == [] then OutOfMemory(s)
    else MapBelow(Grafted(s, t, rest[0]), s.avail[0], rest[1..], leaf)
  }

  /** The lowest table on the way that is there already. */
  function Lowest(s: Spaces, t: FrameNo, rest: Path): FrameNo
    requires rest != []
    decreases |rest|
  {
    var w := At(s.mem, t)[rest[0]];
    if |rest| == 1 || !w.valid then t else Lowest(s, w.frame, rest[1..])
  }

  /** `root` reaches table `t`. */
  ghost predicate Hangs(s: Spaces, root: FrameNo, t: FrameNo) {
    t in s.place && WalkTo(s.mem, root, s.place[t]) == Some(t)
  }

  ghost predicate Free(s: Spaces, t: FrameNo, i: Idx) {
    TreeShape(s) && t in s.place && |s.place[t]| <= 3 && !At(s.mem, t)[i].valid
  }

  lemma GraftedShape(s: Spaces, t: FrameNo, i: Idx)
    requires Free(s, t, i) && |s.place[t]| <= 2 && s.avail != []
    ensures TreeShape(Grafted(s, t, i))
  {
    var s' := Grafted(s, t, i);
    forall f, j: Idx | f in s'.place && |s'.place[f]| <= 3
      ensures At(s'.mem, f)[j].valid <==> At(s'.mem, f)[j].page
      ensures |s'.place[f]| <= 2 ==> Linked(s'.place, s'.place[f], j, At(s'.mem, f)[j])
    {
      if f in s.place {
        assert At(s.mem, f)[j].valid <==> At(s.mem, f)[j].page;
        if |s.place[f]| <= 2 {
          assert Linked(s.place, s.place[f], j, At(s.mem, f)[j]);
        }
      }
    }
  }

  lemma {:induction false} GraftedWalk(s: Spaces, t: FrameNo, i: Idx, r: FrameNo, q: Path)
    requires Free(s, t, i) && |s.place[t]| <= 2 && s.avail != [] && r in s.roots && |q| <= 4
    ensures WalkTo(Grafted(s, t, i).mem, r, q) ==
            if q == s.place[t] + [i] && Hangs(s, r, t) then Some(s.avail[0]) else WalkTo(s.mem, r, q)
  {
    var s' := Grafted(s, t, i);
    if q != [] {
      var q0, j := Front(q), Last(q);
      SnocIs(q, s.place[t], i);
      GraftedWalk(s, t, i, r, q0);
      if WalkTo(s.mem, r, q0).Some? {
        var f := WalkTo(s.mem, r, q0).value;
        WalkPlace(s.mem, s.place, r, q0);
        assert f in s.mem && f != s.avail[0];
        assert Next(s'.mem, f, j) == if f == t && j == i then Some(s.avail[0]) else Next(s.mem, f, j);
      } else {
        assert Next(s'.mem, s.avail[0], j) == None;
      }
      if q0 == s.place[t] + [i] && Hangs(s, r, t) {
        WalkStep(s.mem, r, s.place[t], i);
      }
    }
  }

  function Leafed(s: Spaces, t: FrameNo, i: Idx, leaf: Word): Spaces {
    s.(mem := Put(s.mem, t, i, leaf))
  }

  lemma LeafedShape(s: Spaces, t: FrameNo, i: Idx, leaf: Word)
    requires Free(s, t, i) && |s.place[t]| == 3 && leaf.valid && leaf.page
    ensures TreeShape(Leafed(s, t, i, leaf))
  {
    var s' := Leafed(s, t, i, leaf);
    forall f, j: Idx | f in s'.place && |s'.place[f]| <= 3
      ensures At(s'.mem, f)[j].valid <==> At(s'.mem, f)[j].page
      ensures |s'.place[f]| <= 2 ==> Linked(s'.place, s'.place[f], j, At(s'.mem, f)[j])
    {
      assert At(s.mem, f)[j].valid <==> At(s.mem, f)[j].page;
      if |s.place[f]| <= 2 {
        assert Linked(s.place, s.place[f], j, At(s.mem, f)[j]);
      }
    }
  }

  lemma {:induction false} LeafedWalk(s: Spaces, t: FrameNo, i: Idx, leaf: Word, r: FrameNo, q: Path)
    requires Free(s, t, i) && |s.place[t]| == 3 && leaf.valid && r in s.roots && |q| <= 4
    ensures WalkTo(Leafed(s, t, i, leaf).mem, r, q) ==
            if q == s.place[t] + [i] && Hangs(s, r, t) then Some(leaf.frame) else WalkTo(s.mem, r, q)
  {
    if q != [] {
      var q0, j := Front(q), Last(q);
      SnocIs(q, s.place[t], i);
      LeafedWalk(s, t, i, leaf, r, q0);
      if WalkTo(s.mem, r, q0).Some? {
        WalkPlace(s.mem, s.place, r, q0);
      }
    }
  }

  lemma GraftedHangs(s: Spaces, t: FrameNo, i: Idx, r: FrameNo)
    requires Free(s, t, i) && |s.place[t]| <= 2 && s.avail != [] && r in s.roots
    ensures Hangs(Grafted(s, t, i), r, s.avail[0]) <==> Hangs(s, r, t)
  {
    var q := s.place[t] + [i];
    GraftedWalk(s, t, i, r, q);
    if WalkTo(s.mem, r, q).Some? && |q| <= 3 {
      WalkPlace(s.mem, s.place, r, q);
    }
  }

  lemma GraftedLeaf(s: Spaces, t: FrameNo, i: Idx, r: FrameNo, q: Path)
    requires Free(s, t, i) && |s.place[t]| <= 2 && s.avail != [] && r in s.roots && |q| == 4
    ensures LeafAt(Grafted(s, t, i).mem, r, q) == LeafAt(s.mem, r, q)
  {
    GraftedWalk(s, t, i, r, Front(q));
    if WalkTo(s.mem, r, Front(q)).Some? {
      WalkPlace(s.mem, s.place, r, Front(q));
      assert WalkTo(s.mem, r, Front(q)).value in s.mem;
    }
    if Hangs(s, r, t) {
      WalkStep(s.mem, r, s.place[t], i);
    }
  }

  lemma LeafedLeaf(s: Spaces, t: FrameNo, i: Idx, leaf: Word, r: FrameNo, q: Path)
    requires Free(s, t, i) && |s.place[t]| == 3 && leaf.valid && r in s.roots && |q| == 4
    ensures LeafAt(Leafed(s, t, i, leaf).mem, r, q) ==
            if q == s.place[t] + [i] && Hangs(s, r, t) then Some(leaf) else LeafAt(s.mem, r, q)
  {
    LeafedWalk(s, t, i, leaf, r, Front(q));
    SnocIs(q, s.place[t], i);
    if WalkTo(s.mem, r, Front(q)).Some? {
      WalkPlace(s.mem, s.place, r, Front(q));
    }
  }

  /** Seen from `r` at page `q`, `out` differs from `s` only in that everybody who reaches table `low`
      finds `leaf` at `va`. */
  ghost predicate MapsOne(s: Spaces, out: Spaces, low: FrameNo, va: Path, leaf: Word, r: FrameNo, q: Path)
    requires |q| == 4
  {
    && TreeShape(out) && out.roots == s.roots && low in s.place
    && LeafAt(out.mem, r, q) == if q == va && Hangs(s, r, low) then Some(leaf) else LeafAt(s.mem, r, q)
  }

  lemma GraftThenMap(s: Spaces, t: FrameNo, i: Idx, out: Spaces, va: Path, leaf: Word, r: FrameNo, q: Path)
    requires Free(s, t, i) && |s.place[t]| <= 2 && s.avail != [] && r in s.roots && |q| == 4
    requires MapsOne(Grafted(s, t, i), out, s.avail[0], va, leaf, r, q)
    ensures MapsOne(s, out, t, va, leaf, r, q)
  {
    GraftedLeaf(s, t, i, r, q);
    GraftedHangs(s, t, i, r);
  }

  /** One page is mapped and nothing else changes, for `root` and for everybody who shares the table in
      which the new entry was made. */
  lemma {:induction false} MapBelowWalk(s: Spaces, t: FrameNo, rest: Path, leaf: Word, r: FrameNo, q: Path)
    requires TreeShape(s) && t in s.place && rest != [] && |s.place[t]| + |rest| == 4 && leaf.valid && leaf.page
    requires r in s.roots && |q| == 4 && MapBelow(s, t, rest, leaf).Mapped?
    ensures MapsOne(s, MapBelow(s, t, rest, leaf).s, Lowest(s, t, rest), s.place[t] + rest, leaf, r, q)
    decreases |rest|
  {
    var w := At(s.mem, t)[rest[0]];
    Shifted(s.place[t], rest);
    if |rest| == 1 {
      assert rest == [rest[0]];
      LeafedShape(s, t, rest[0], leaf);
      LeafedLeaf(s, t, rest[0], leaf, r, q);
    } else if w.valid {
      assert Linked(s.place, s.place[t], rest[0], w);
      MapBelowWalk(s, w.frame, rest[1..], leaf, r, q);
    } else {
      var s', n := Grafted(s, t, rest[0]), s.avail[0];
      GraftedShape(s, t, rest[0]);
      MapBelowWalk(s', n, rest[1..], leaf, r, q);
      assert Lowest(s', n, rest[1..]) == n;
      GraftThenMap(s, t, rest[0], MapBelow(s', n, rest[1..], leaf).s, s.place[t] + rest, leaf, r, q);
    }
  }

  /** Only the lowest table that was there already changes; pages and other tables keep their words. */
  lemma {:induction false} MapBelowFrame(s: Spaces, t: FrameNo, rest: Path, leaf: Word, f: FrameNo)
    requires TreeShape(s) && t in s.place && rest != [] && |s.place[t]| + |rest| == 4 && leaf.valid && leaf.page
    requires f in s.mem
    ensures var out := MapBelow(s, t, rest, leaf);
            && f in out.s.mem
            && (f != Lowest(s, t, rest) ==> At(out.s.mem, f) == At(s.mem, f))
            && (out.Exists? ==> out.s == s)
            && TreeShape(out.s) && out.s.roots == s.roots
    decreases |rest|
  {
    var w := At(s.mem, t)[rest[0]];
    if |rest| == 1 {
      if !w.valid {
        LeafedShape(s, t, rest[0], leaf);
      }
    } else if w.valid {
      assert Linked(s.place, s.place[t], rest[0], w);
      MapBelowFrame(s, w.frame, rest[1..], leaf, f);
    } else if s.avail != [] {
      var s', n := Grafted(s, t, rest[0]), s.avail[0];
      GraftedShape(s, t, rest[0]);
      MapBelowFrame(s', n, rest[1..], leaf, f);
      assert Lowest(s', n, rest[1..]) == n;
      BlankMaps(s', n, rest[1..], leaf);
    }
  }

  /** Below a blank table nothing exists, whatever the rest of memory looks like. */
  lemma {:induction false} BlankMaps(s: Spaces, t: FrameNo, rest: Path, leaf: Word)
    requires t in s.place && rest != [] && At(s.mem, t) == Blank(512)
    requires forall f :: f in s.avail ==> f !in s.mem
    requires forall i, j :: 0 <= i < j < |s.avail| ==> s.avail[i] != s.avail[j]
    requires t in s.mem
    ensures !MapBelow(s, t, rest, leaf).Exists?
    decreases |rest|
  {
    if |rest| > 1 && s.avail != [] {
      BlankMaps(Grafted(s, t, rest[0]), s.avail[0], rest[1..], leaf);
    }
  }

  /** `ERR_MEM_EXS` exactly when the page is mapped already. */
  lemma {:induction false} MapBelowExists(s: Spaces, root: FrameNo, t: FrameNo, rest: Path, leaf: Word)
    requires TreeShape(s) && root in s.roots && Hangs(s, root, t) && rest != [] && |s.place[t]| + |rest| == 4
    ensures MapBelow(s, t, rest, leaf).Exists? <==> WalkTo(s.mem, root, s.place[t] + rest).Some?
    decreases |rest|
  {
    var w := At(s.mem, t)[rest[0]];
    var p := s.place[t] + [rest[0]];
    assert s.place[t] + rest == p + rest[1..];
    WalkStep(s.mem, root, s.place[t], rest[0]);
    if |rest| == 1 {
      assert p + rest[1..] == p;
    } else if w.valid {
      assert Linked(s.place, s.place[t], rest[0], w);
      MapBelowExists(s, root, w.frame, rest[1..], leaf);
    } else {
      if WalkTo(s.mem, root, p + rest[1..]).Some? {
        WalkPrefix(s.mem, root, p, p + rest[1..]);
      }
      if s.avail != [] {
        BlankMaps(Grafted(s, t, rest[0]), s.avail[0], rest[1..], leaf);
      }
    }
  }

  /** The flat map: a successful mapping sets one page and changes no other, in the view of every process.
      The others see the new page only if they share the table that holds the new entry. */
  lemma MapPageFlat(s: Spaces, root: FrameNo, va: Path, leaf: Word, r: FrameNo, q: Path)
    requires TreeShape(s) && root in s.roots && |va| == 4 && leaf.valid && leaf.page
    requires r in s.roots && |q| == 4
    ensures var out := MapBelow(s, root, va, leaf);
            && (out.Exists? <==> WalkTo(s.mem, root, va).Some?)
            && (out.Exists? ==> out.s == s)
            && TreeShape(out.s) && out.s.roots == s.roots
            && (out.Mapped? ==>
                  LeafAt(out.s.mem, r, q) ==
                  if q == va && Hangs(s, r, Lowest(s, root, va)) then Some(leaf) else LeafAt(s.mem, r, q))
            && Hangs(s, root, Lowest(s, root, va))
  {
    assert s.place[root] == [] && [] + va == va;
    MapBelowExists(s, root, root, va, leaf);
    MapBelowFrame(s, root, va, leaf, root);
    if MapBelow(s, root, va, leaf).Mapped? {
      MapBelowWalk(s, root, va, leaf, r, q);
    }
    LowestHangs(s, root, root, va);
  }

  lemma {:induction false} LowestHangs(s: Spaces, root: FrameNo, t: FrameNo, rest: Path)
    requires TreeShape(s) && root in s.roots && Hangs(s, root, t) && rest != [] && |s.place[t]| + |rest| == 4
    ensures Hangs(s, root, Lowest(s, t, rest)) && |s.place[Lowest(s, t, rest)]| <= 3
    ensures |s.place[Lowest(s, t, rest)]| < |s.place[t] + rest|
    ensures s.place[Lowest(s, t, rest)] <= s.place[t] + rest
    decreases |rest|
  {
    var w := At(s.mem, t)[rest[0]];
    if |rest| > 1 && w.valid {
      assert Linked(s.place, s.place[t], rest[0], w);
      WalkStep(s.mem, root, s.place[t], rest[0]);
      LowestHangs(s, root, w.frame, rest[1..]);
      Shifted(s.place[t], rest);
    }
  }

  /** A page that was not placed yet can join the tree: this is how the trees that later get forked are built. */
  lemma MapOwnPage(s: Spaces, root: FrameNo, va: Path, leaf: Word)
    requires Shape(s) && root in s.roots && |va| == 4 && leaf.valid && leaf.page
    requires leaf.frame in s.mem && leaf.frame !in s.place
    requires MapBelow(s, root, va, leaf).Mapped?
    ensures var out := MapBelow(s, root, va, leaf).s;
            Shape(out.(place := out.place[leaf.frame := va]))
  {
    var out := MapBelow(s, root, va, leaf).s;
    MapBelowLeaves(s, root, va, leaf);
    assert LeavesBut(out, leaf, va) by {
      assert s.place[root] == [] && [] + va == va;
    }
    PlaceLeaf(out, leaf, va);
  }

  /** Every leaf is placed, except perhaps one that reads `leaf`, at `va`. */
  ghost predicate LeavesBut(s: Spaces, leaf: Word, va: Path) {
    forall f, i: Idx :: f in s.place && |s.place[f]| == 3 ==>
      (At(s.mem, f)[i] == leaf && s.place[f] + [i] == va) || Linked(s.place, s.place[f], i, At(s.mem, f)[i])
  }

  lemma PlaceLeaf(s: Spaces, leaf: Word, va: Path)
    requires TreeShape(s) && LeavesBut(s, leaf, va) && leaf.frame in s.mem && leaf.frame !in s.place && |va| == 4
    ensures Shape(s.(place := s.place[leaf.frame := va]))
  {
    var p' := s.place[leaf.frame := va];
    forall f, i: Idx | f in p' && |p'[f]| <= 3
      ensures Linked(p', p'[f], i, At(s.mem, f)[i])
    {
      if |p'[f]| <= 2 {
        assert Linked(s.place, s.place[f], i, At(s.mem, f)[i]);
      } else {
        assert (At(s.mem, f)[i] == leaf && s.place[f] + [i] == va) || Linked(s.place, s.place[f], i, At(s.mem, f)[i]);
      }
    }
  }

  lemma {:induction false} MapBelowLeaves(s: Spaces, t: FrameNo, rest: Path, leaf: Word)
    requires Shape(s) && t in s.place && rest != [] && |s.place[t]| + |rest| == 4 && leaf.valid && leaf.page
    requires leaf.frame in s.mem && leaf.frame !in s.place
    requires MapBelow(s, t, rest, leaf).Mapped?
    ensures var out := MapBelow(s, t, rest, leaf).s;
            && TreeShape(out) && leaf.frame !in out.place && leaf.frame in out.mem
            && LeavesBut(out, leaf, s.place[t] + rest)
    decreases |rest|
  {
    var w := At(s.mem, t)[rest[0]];
    Shifted(s.place[t], rest);
    if |rest| == 1 {
      assert rest == [rest[0]];
      LeafedShape(s, t, rest[0], leaf);
      var m := Put(s.mem, t, rest[0], leaf);
      forall f, i: Idx | f in s.place && |s.place[f]| == 3 && !(f == t && i == rest[0])
        ensures Linked(s.place, s.place[f], i, At(m, f)[i])
      {
        assert Linked(s.place, s.place[f], i, At(s.mem, f)[i]);
      }
    } else if w.valid {
      assert Linked(s.place, s.place[t], rest[0], w);
      MapBelowLeaves(s, w.frame, rest[1..], leaf);
    } else {
      var s' := Grafted(s, t, rest[0]);
      GraftedShape(s, t, rest[0]);
      GraftedLeaves(s, t, rest[0]);
      MapBelowLeaves(s', s.avail[0], rest[1..], leaf);
      assert s'.place[s.avail[0]] + rest[1..] == s.place[t] + rest;
    }
  }

  lemma GraftedLeaves(s: Spaces, t: FrameNo, i: Idx)
    requires Free(s, t, i) && |s.place[t]| <= 2 && s.avail != [] && Leaves(s.mem, s.place)
    ensures Leaves(Grafted(s, t, i).mem, Grafted(s, t, i).place)
  {
    var s' := Grafted(s, t, i);
    forall f, j: Idx | f in s'.place && |s'.place[f]| == 3
      ensures Linked(s'.place, s'.place[f], j, At(s'.mem, f)[j])
    {
      if f in s.place {
        assert Linked(s.place, s.place[f], j, At(s.mem, f)[j]);
      }
    }
  }

  // ---------------------------------------------------------------- out of memory

  /** What is left once `mem_user_map_page` has given back the tables it had allocated. */
  function GivenBack(s: Spaces, out: Spaces): Mem {
    out.mem - (out.mem.Keys - s.mem.Keys)
  }

  /** Running out of memory leaves the tree intact only if not even the first table could be had:
      otherwise that table is freed although an entry still leads to it. */
  lemma OutOfMemoryShape(s: Spaces, root: FrameNo, va: Path, leaf: Word)
    requires TreeShape(s) && root in s.roots && |va| == 4 && leaf.valid && leaf.page
    requires MapBelow(s, root, va, leaf).OutOfMemory?
    ensures Tables(GivenBack(s, MapBelow(s, root, va, leaf).s), s.place) <==> s.avail == []
  {
    if s.avail == [] {
      NothingGrafted(s, root, va, leaf);
      assert GivenBack(s, s) == s.mem;
    } else {
      var m := GivenBack(s, MapBelow(s, root, va, leaf).s);
      var t := Lowest(s, root, va);
      assert s.place[root] == [] && [] + va == va;
      LowestHangs(s, root, root, va);
      FirstGraft(s, root, va, leaf);
      var i := va[|s.place[t]|];
      assert At(m, t)[i] == TableWord(s.avail[0]);
      assert !Linked(s.place, s.place[t], i, At(m, t)[i]);
    }
  }

  /** Below a table that was just grafted the rest of the frames is used up, and that table stays linked. */
  lemma {:induction false} BlankRunsOut(s: Spaces, n: FrameNo, rest: Path, leaf: Word, t: FrameNo)
    requires n in s.place && n in s.mem && At(s.mem, n) == Blank(512) && |s.avail| < |rest| - 1 && t != n && t in s.mem
    requires forall f :: f in s.avail ==> f !in s.mem
    requires forall i, j :: 0 <= i < j < |s.avail| ==> s.avail[i] != s.avail[j]
    ensures var out := MapBelow(s, n, rest, leaf); out.OutOfMemory? && At(out.s.mem, t) == At(s.mem, t)
    decreases |s.avail|
  {
    if s.avail != [] {
      var s1 := Grafted(s, n, rest[0]);
      assert s.avail[0] in s.avail;
      forall f | f in s1.avail
        ensures f !in s1.mem
      {
        var i :| 0 <= i < |s1.avail| && s1.avail[i] == f;
        assert s.avail[i + 1] == f && f in s.avail;
      }
      forall i, j | 0 <= i < j < |s1.avail|
        ensures s1.avail[i] != s1.avail[j]
      {
        assert s1.avail[i] == s.avail[i + 1] && s1.avail[j] == s.avail[j + 1];
      }
      BlankRunsOut(s1, s.avail[0], rest[1..], leaf, t);
    }
  }

  /** With the level-1 table missing and fewer than three frames left, the level-1 table is given back although the
      top-level entry leads to it. */
  lemma FewFramesDangle(s: Spaces, root: FrameNo, va: Path, leaf: Word)
    requires TreeShape(s) && root in s.roots && |va| == 4 && !At(s.mem, root)[va[0]].valid && 1 <= |s.avail| <= 2
    ensures var out := MapBelow(s, root, va, leaf); var m := GivenBack(s, out.s);
            out.OutOfMemory? && s.avail[0] !in m && Next(m, root, va[0]) == Some(s.avail[0])
  {
    var n, s1 := s.avail[0], Grafted(s, root, va[0]);
    assert n in s.avail;
    BlankRunsOut(s1, n, va[1..], leaf, root);
  }

  lemma {:induction false} NothingGrafted(s: Spaces, t: FrameNo, rest: Path, leaf: Word)
    requires t in s.place && rest != [] && s.avail == []
    ensures MapBelow(s, t, rest, leaf).OutOfMemory? ==> MapBelow(s, t, rest, leaf).s == s
    decreases |rest|
  {
    var w := At(s.mem, t)[rest[0]];
    if |rest| > 1 && w.valid && w.frame in s.place {
      NothingGrafted(s, w.frame, rest[1..], leaf);
    }
  }

  lemma {:induction false} FirstGraft(s: Spaces, t: FrameNo, rest: Path, leaf: Word)
    requires TreeShape(s) && t in s.place && rest != [] && |s.place[t]| + |rest| == 4 && leaf.valid && leaf.page
    requires MapBelow(s, t, rest, leaf).OutOfMemory? && s.avail != []
    ensures var m, low := MapBelow(s, t, rest, leaf).s.mem, Lowest(s, t, rest);
            && low in s.place && |s.place[t]| <= |s.place[low]| <= 2
            && At(m, low)[(s.place[t] + rest)[|s.place[low]|]] == TableWord(s.avail[0])
    decreases |rest|
  {
    var w := At(s.mem, t)[rest[0]];
    if w.valid {
      assert Linked(s.place, s.place[t], rest[0], w);
      FirstGraft(s, w.frame, rest[1..], leaf);
      Shifted(s.place[t], rest);
    } else {
      var s', n := Grafted(s, t, rest[0]), s.avail[0];
      GraftedShape(s, t, rest[0]);
      MapBelowFrame(s', n, rest[1..], leaf, t);
      assert Lowest(s', n, rest[1..]) == n;
    }
  }

  // ---------------------------------------------------------------- unmapping a page

  datatype UnmapResult = NotMapped | Kept(frame: FrameNo) | Removed

  /** `mem_user_unmap_page`: the entry is cleared only if its counter says that others own the page too. */
  function Unmap(s: Spaces, root: FrameNo, va: Path): (Spaces, UnmapResult)
    requires |va| == 4
  {
    match WalkTo(s.mem, root, Front(va))
    case None => (s, NotMapped)
    case Some(t) =>
      var w := At(s.mem, t)[Last(va)];
      if !w.valid then (s, NotMapped)
      else if w.refs == 0 then (s, Kept(w.frame))
      else (s.(mem := Put(s.mem, t, Last(va), ZERO)), Removed)
  }

  /** No other page changes.  The page itself is unmapped, as the header promises, if and only if the
      counter of its entry was above zero; a sole owner keeps it mapped. */
  lemma {:induction false} UnmapFlat(s: Spaces, root: FrameNo, va: Path, r: FrameNo, q: Path)
    requires TreeShape(s) && root in s.roots && |va| == 4 && r in s.roots && |q| <= 4
    ensures var (s', res) := Unmap(s, root, va);
            && WalkTo(s'.mem, r, q) ==
               (if q == va && res.Removed? && WalkTo(s.mem, r, Front(va)) == WalkTo(s.mem, root, Front(va)) then None
                else WalkTo(s.mem, r, q))
            && (res.NotMapped? <==> WalkTo(s.mem, root, va).None?)
            && (res.Kept? ==> WalkTo(s.mem, root, va) == Some(res.frame))
  {
    var (s', res) := Unmap(s, root, va);
    WalkStep(s.mem, root, Front(va), Last(va));
    assert va == Front(va) + [Last(va)];
    if q != [] {
      UnmapFlat(s, root, va, r, Front(q));
      assert q == Front(q) + [Last(q)];
      if WalkTo(s.mem, root, Front(va)).Some? {
        WalkPlace(s.mem, s.place, root, Front(va));
      }
      if WalkTo(s.mem, r, Front(q)).Some? {
        WalkPlace(s.mem, s.place, r, Front(q));
      }
    }
  }

  lemma UnmapRemoves(s: Spaces, root: FrameNo, va: Path)
    requires TreeShape(s) && root in s.roots && |va| == 4 && !Unmap(s, root, va).1.NotMapped?
    ensures WalkTo(Unmap(s, root, va).0.mem, root, va).None? <==>
            At(s.mem, WalkTo(s.mem, root, Front(va)).value)[Last(va)].refs > 0
  {
    UnmapFlat(s, root, va, root, va);
  }
}
