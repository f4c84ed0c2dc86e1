/** Copy-on-write: the owner counters in the descriptors, `mem_table_soft_copy` and fork, the data-abort handler, and
    stores, with the invariant that each of them keeps (mem.c, mmu.c, task.c). */
module Cow {
  import opened Options
  import opened Words
  import opened Paging

  // ---------------------------------------------------------------- the invariant

  /** The top-level tables from which path `p` leads to `f`. */
  function Sharers(s: Spaces, p: Path, f: FrameNo): set<FrameNo> {
    set r | r in s.roots && WalkTo(s.mem, r, p) == Some(f)
  }

  ghost predicate Shape(s: Spaces) {
    TreeShape(s) && Leaves(s.mem, s.place)
  }

  /** Every table is reached by at most one root more than the counter of any of its entries. */
  ghost predicate Counted(s: Spaces) {
    forall f, i: Idx :: f in s.place && 1 <= |s.place[f]| <= 3 && At(s.mem, f)[i].valid ==>
      |Sharers(s, s.place[f], f)| <= At(s.mem, f)[i].refs + 1
  }

  /** A page that some process may write is reached by that process only. */
  ghost predicate Private(s: Spaces) {
    forall f, i: Idx ::
      (f in s.place && |s.place[f]| == 3 && At(s.mem, f)[i].valid && At(s.mem, f)[i].ap == RwRw &&
       Sharers(s, s.place[f], f) != {}) ==>
      |Sharers(s, s.place[f] + [i], At(s.mem, f)[i].frame)| <= 1
  }

  ghost predicate Inv(s: Spaces) {
    Shape(s) && Counted(s) && Private(s)
  }

  /** Every process reads what it read before. */
  ghost predicate SamePages(s: Spaces, s': Spaces) {
    && s'.roots == s.roots
    && forall r, q: Path :: r in s.roots && |q| == 4 ==> PageAt(s'.mem, r, q) == PageAt(s.mem, r, q)
  }

  // ---------------------------------------------------------------- one entry moved to a copy

  /** An entry on the way to a page: its table, which `root` reaches by `path`, and its index. */
  datatype Hop = Hop(root: FrameNo, path: Path, parent: FrameNo, pi: Idx)

  /** What the entry leads to. */
  function Target(s: Spaces, h: Hop): FrameNo
  {
    At(s.mem, h.parent)[h.pi].frame
  }

  /** The entry leads somewhere, and `root` reaches it. */
  ghost predicate Spot(s: Spaces, h: Hop) {
    && h.root in s.roots && |h.path| <= 3
    && h.parent in s.place && s.place[h.parent] == h.path
    && WalkTo(s.mem, h.root, h.path) == Some(h.parent)
    && At(s.mem, h.parent)[h.pi].valid
  }

  /** `root` alone reaches it. */
  ghost predicate Site(s: Spaces, h: Hop) {
    Spot(s, h) && Sharers(s, h.path, h.parent) == {h.root}
  }

  /** Pages whose words may differ in their counters only, and there by one. */
  ghost predicate Alike(was: Page, page: Page) {
    forall j: Idx ::
      page[j] == was[j].(refs := page[j].refs) && page[j].refs <= was[j].refs <= page[j].refs + 1
  }

  /** The target's words become `page`, a fresh frame receives a copy of them, and the entry
      is overwritten with `w`. */
  function Redirected(s: Spaces, h: Hop, w: Word, page: Page): Spaces
    requires s.avail != []
  {
    var n := s.avail[0];
    var m := s.mem[Target(s, h) := page][n := page];
    Spaces(Put(m, h.parent, h.pi, w), s.roots, s.place[n := h.path + [h.pi]], s.avail[1..])
  }

  ghost predicate Redirects(s: Spaces, h: Hop, w: Word, page: Page) {
    && Shape(s) && Spot(s, h) && s.avail != []
    && w.valid && w.page && w.frame == s.avail[0]
    && Alike(At(s.mem, Target(s, h)), page)
  }

  lemma SitePlaces(s: Spaces, h: Hop)
    requires Shape(s) && Spot(s, h)
    ensures Target(s, h) in s.place && s.place[Target(s, h)] == h.path + [h.pi]
    ensures WalkTo(s.mem, h.root, h.path + [h.pi]) == Some(Target(s, h))
    ensures h.root in Sharers(s, h.path + [h.pi], Target(s, h))
  {
    WalkStep(s.mem, h.root, h.path, h.pi);
    WalkPlace(s.mem, s.place, h.root, h.path + [h.pi]);
  }

  /** Word by word, what the redirection does to memory. */
  lemma RedirectedWord(s: Spaces, h: Hop, w: Word, page: Page, t: FrameNo, j: Idx)
    requires Redirects(s, h, w, page)
    ensures var m' := Redirected(s, h, w, page).mem;
            At(m', t)[j] ==
            if t == h.parent && j == h.pi then w
            else if t == Target(s, h) || t == s.avail[0] then page[j]
            else At(s.mem, t)[j]
    ensures t in Redirected(s, h, w, page).mem <==> t in s.mem || t == s.avail[0]
  {
    SitePlaces(s, h);
  }

  lemma RedirectedNext(s: Spaces, h: Hop, w: Word, page: Page, r: FrameNo, q: Path, t: FrameNo, j: Idx)
    requires Redirects(s, h, w, page)
    requires r in s.roots && |q| <= 3 && WalkTo(s.mem, r, q) == Some(t)
    ensures var m' := Redirected(s, h, w, page).mem;
            var n := s.avail[0];
            && Next(m', t, j) == (if t == h.parent && j == h.pi then Some(n) else Next(s.mem, t, j))
            && Next(m', n, j) == Next(s.mem, Target(s, h), j)
    ensures t == h.parent ==> q == h.path
  {
    SitePlaces(s, h);
    WalkPlace(s.mem, s.place, r, q);
    RedirectedWord(s, h, w, page, t, j);
    RedirectedWord(s, h, w, page, s.avail[0], j);
  }

  /** Does `r` come to the redirected entry on its way along `q`? */
  predicate Meets(s: Spaces, h: Hop, r: FrameNo, q: Path) {
    q == h.path + [h.pi] && WalkTo(s.mem, r, h.path) == Some(h.parent)
  }

  /** Only who reaches the parent sees the redirection, and only at the path of the redirected entry. */
  lemma {:induction false} RedirectedWalk(s: Spaces, h: Hop, w: Word, page: Page, r: FrameNo, q: Path)
    requires Redirects(s, h, w, page)
    requires r in s.roots && |q| <= 4
    ensures WalkTo(Redirected(s, h, w, page).mem, r, q) ==
            if Meets(s, h, r, q) then Some(s.avail[0]) else WalkTo(s.mem, r, q)
  {
    if q != [] {
      var q0, j := Front(q), Last(q);
      SnocIs(q, h.path, h.pi);
      RedirectedWalk(s, h, w, page, r, q0);
      if WalkTo(s.mem, r, q0).Some? {
        var t := WalkTo(s.mem, r, q0).value;
        RedirectedNext(s, h, w, page, r, q0, t, j);
        if Meets(s, h, r, q0) { MeetsTarget(s, h, r); }
      } else if Meets(s, h, r, q0) {
        MeetsTarget(s, h, r);
      }
    }
  }

  lemma MeetsTarget(s: Spaces, h: Hop, r: FrameNo)
    requires Shape(s) && Spot(s, h) && WalkTo(s.mem, r, h.path) == Some(h.parent)
    ensures WalkTo(s.mem, r, h.path + [h.pi]) == Some(Target(s, h))
  {
    WalkStep(s.mem, r, h.path, h.pi);
  }

  lemma RedirectedSharers(s: Spaces, h: Hop, w: Word, page: Page, q: Path, f: FrameNo)
    requires Redirects(s, h, w, page) && Site(s, h) && |q| <= 4
    ensures Sharers(Redirected(s, h, w, page), q, f) ==
            if q != h.path + [h.pi] then Sharers(s, q, f)
            else if f == s.avail[0] then {h.root}
            else Sharers(s, q, f) - {h.root}
  {
    var m', n := Redirected(s, h, w, page).mem, s.avail[0];
    SitePlaces(s, h);
    forall r | r in s.roots
      ensures WalkTo(m', r, q) == if r == h.root && q == h.path + [h.pi] then Some(n) else WalkTo(s.mem, r, q)
      ensures WalkTo(s.mem, r, q) != Some(n)
    {
      RedirectedWalk(s, h, w, page, r, q);
      assert WalkTo(s.mem, r, h.path) == Some(h.parent) <==> r in Sharers(s, h.path, h.parent);
      if WalkTo(s.mem, r, q).Some? {
        WalkPlace(s.mem, s.place, r, q);
      }
    }
  }

  lemma SmallerSet<T>(s: set<T>, x: T)
    ensures |s - {x}| == if x in s then |s| - 1 else |s|
  {
    if x in s {
      assert s == (s - {x}) + {x};
    } else {
      assert s - {x} == s;
    }
  }

  lemma {:induction false} SubsetSize<T>(a: set<T>, b: set<T>)
    requires a <= b
    ensures |a| <= |b|
  {
    if a != {} {
      var x :| x in a;
      SmallerSet(a, x);
      SmallerSet(b, x);
      SubsetSize(a - {x}, b - {x});
    }
  }

  lemma OnlyOne<T>(s: set<T>, x: T, y: T)
    requires x in s && y in s && |s| <= 1
    ensures x == y
  {
    SmallerSet(s, x);
    assert y in s - {x} || x == y;
  }

  lemma RedirectedEntry(s: Spaces, h: Hop, w: Word, page: Page, f: FrameNo, j: Idx)
    requires Redirects(s, h, w, page)
    requires var p' := Redirected(s, h, w, page).place; f in p' && |p'[f]| <= 3
    ensures var s' := Redirected(s, h, w, page);
            && (At(s'.mem, f)[j].valid <==> At(s'.mem, f)[j].page)
            && Linked(s'.place, s'.place[f], j, At(s'.mem, f)[j])
  {
    SitePlaces(s, h);
    RedirectedWord(s, h, w, page, f, j);
    var t := if f == s.avail[0] then Target(s, h) else f;
    assert Linked(s.place, s.place[t], j, At(s.mem, t)[j]);
    assert At(s.mem, t)[j].valid <==> At(s.mem, t)[j].page;
  }

  lemma RedirectedShape(s: Spaces, h: Hop, w: Word, page: Page)
    requires Redirects(s, h, w, page)
    ensures Shape(Redirected(s, h, w, page))
  {
    SitePlaces(s, h);
    var s' := Redirected(s, h, w, page);
    forall f, j: Idx | f in s'.place && |s'.place[f]| <= 3
      ensures At(s'.mem, f)[j].valid <==> At(s'.mem, f)[j].page
      ensures Linked(s'.place, s'.place[f], j, At(s'.mem, f)[j])
    {
      RedirectedEntry(s, h, w, page, f, j);
    }
  }

  lemma RedirectedCounted(s: Spaces, h: Hop, w: Word, page: Page)
    requires Redirects(s, h, w, page) && Site(s, h) && Counted(s)
    ensures Counted(Redirected(s, h, w, page))
  {
    var s' := Redirected(s, h, w, page);
    SitePlaces(s, h);
    forall f, j: Idx | f in s'.place && 1 <= |s'.place[f]| <= 3 && At(s'.mem, f)[j].valid
      ensures |Sharers(s', s'.place[f], f)| <= At(s'.mem, f)[j].refs + 1
    {
      RedirectedSharers(s, h, w, page, s'.place[f], f);
      RedirectedWord(s, h, w, page, f, j);
      if f != s.avail[0] {
        SmallerSet(Sharers(s, s.place[f], f), h.root);
      }
    }
  }

  lemma RedirectedPrivate(s: Spaces, h: Hop, w: Word, page: Page)
    requires Redirects(s, h, w, page) && Site(s, h) && Private(s)
    ensures Private(Redirected(s, h, w, page))
  {
    var s' := Redirected(s, h, w, page);
    SitePlaces(s, h);
    forall f, j: Idx | f in s'.place && |s'.place[f]| == 3 && At(s'.mem, f)[j].valid
      && At(s'.mem, f)[j].ap == RwRw && Sharers(s', s'.place[f], f) != {}
      ensures |Sharers(s', s'.place[f] + [j], At(s'.mem, f)[j].frame)| <= 1
    {
      RedirectedSharers(s, h, w, page, s'.place[f], f);
      RedirectedSharers(s, h, w, page, s'.place[f] + [j], At(s'.mem, f)[j].frame);
      RedirectedWord(s, h, w, page, f, j);
      var t := if f == s.avail[0] then Target(s, h) else f;
      assert s.place[t] == s'.place[f];
      if !(f == h.parent && j == h.pi) {
        assert At(s.mem, t)[j].frame == At(s'.mem, f)[j].frame && At(s.mem, t)[j].ap == RwRw && At(s.mem, t)[j].valid;
        SmallerSet(Sharers(s, s'.place[f] + [j], At(s'.mem, f)[j].frame), h.root);
      }
    }
  }

  lemma RedirectedPages(s: Spaces, h: Hop, w: Word, page: Page, r: FrameNo, q: Path)
    requires Redirects(s, h, w, page) && r in s.roots && |q| == 4
    requires |h.path| == 3 ==> page == At(s.mem, Target(s, h))
    ensures PageAt(Redirected(s, h, w, page).mem, r, q) == PageAt(s.mem, r, q)
  {
    RedirectedWalk(s, h, w, page, r, q);
    SitePlaces(s, h);
    if WalkTo(s.mem, r, q).Some? {
      WalkPlace(s.mem, s.place, r, q);
    }
    if Meets(s, h, r, q) {
      assert Target(s, h) in Redirected(s, h, w, page).mem;
      MeetsTarget(s, h, r);
    }
  }

  // ---------------------------------------------------------------- changes that move no entry

  lemma SameLinksSharers(s: Spaces, m: Mem, q: Path, f: FrameNo)
    requires Shape(s) && SameLinks(s, m) && |q| <= 4
    ensures Sharers(s.(mem := m), q, f) == Sharers(s, q, f)
  {
    forall r | r in s.roots
      ensures WalkTo(m, r, q) == WalkTo(s.mem, r, q)
    {
      SameLinksWalk(s, m, r, q);
    }
  }

  /** Same links, and every word that is not in a table unchanged. */
  ghost predicate SameBelow(s: Spaces, m: Mem) {
    && m.Keys == s.mem.Keys
    && SameLinks(s, m)
    && (forall f :: f in s.mem && (f in s.place ==> |s.place[f]| == 4) ==> At(m, f) == At(s.mem, f))
  }

  lemma SameBelowShape(s: Spaces, m: Mem)
    requires Shape(s) && SameBelow(s, m)
    ensures Shape(s.(mem := m)) && SamePages(s, s.(mem := m))
  {
    var s' := s.(mem := m);
    forall f, j: Idx | f in s.place && |s.place[f]| <= 3
      ensures Linked(s.place, s.place[f], j, At(m, f)[j])
      ensures At(m, f)[j].valid <==> At(m, f)[j].page
    {
      assert Linked(s.place, s.place[f], j, At(s.mem, f)[j]);
      assert At(s.mem, f)[j].valid <==> At(s.mem, f)[j].page;
    }
    forall r, q: Path | r in s.roots && |q| == 4
      ensures PageAt(m, r, q) == PageAt(s.mem, r, q)
    {
      SameLinksWalk(s, m, r, q);
      if WalkTo(s.mem, r, q).Some? {
        WalkPlace(s.mem, s.place, r, q);
      }
    }
  }

  // ---------------------------------------------------------------- fork

  ghost predicate Reaches(s: Spaces, root: FrameNo, f: FrameNo) {
    f in s.place && WalkTo(s.mem, root, s.place[f]) == Some(f)
  }

  /** The words `mem_table_soft_copy` marks: below each valid top-level entry, all words of the
      level-1 table, valid or not, and the valid words of the level-2 and level-3 tables. */
  ghost predicate Marks(s: Spaces, root: FrameNo, f: FrameNo, i: Idx)
  {
    && Reaches(s, root, f) && 1 <= |s.place[f]| <= 3
    && (|s.place[f]| == 1 || At(s.mem, f)[i].valid)
  }

  ghost predicate SoftCopied(s: Spaces, root: FrameNo, m: Mem) {
    && m.Keys == s.mem.Keys
    && forall f, i: Idx :: f in s.mem ==>
         At(m, f)[i] == if Marks(s, root, f, i) then Copied(At(s.mem, f)[i]) else At(s.mem, f)[i]
  }

  /** `task_fork`: soft copy of the parent, then its top-level table copied to a fresh frame. */
  ghost predicate Forks(s: Spaces, parent: FrameNo, s': Spaces) {
    && parent in s.roots && s.avail != []
    && exists m :: SoftCopied(s, parent, m) && s' == Child(s, parent, m)
  }

  function Child(s: Spaces, parent: FrameNo, m: Mem): Spaces
    requires s.avail != []
  {
    var c := s.avail[0];
    Spaces(m[c := At(m, parent)], s.roots + {c}, s.place[c := []], s.avail[1..])
  }

  lemma {:induction false} ForkWalk(s: Spaces, parent: FrameNo, m: Mem, r: FrameNo, q: Path)
    requires Shape(s) && parent in s.roots && s.avail != [] && SoftCopied(s, parent, m)
    requires |q| <= 4 && r in s.roots + {s.avail[0]}
    ensures var s' := Child(s, parent, m);
            WalkTo(s'.mem, r, q) ==
            if r == s.avail[0] then (if q == [] then Some(r) else WalkTo(s.mem, parent, q))
            else WalkTo(s.mem, r, q)
  {
    var s' := Child(s, parent, m);
    if q != [] {
      ForkWalk(s, parent, m, r, Front(q));
      var r0 := if r == s.avail[0] then parent else r;
      if WalkTo(s.mem, r0, Front(q)).Some? {
        var t := WalkTo(s.mem, r0, Front(q)).value;
        WalkPlace(s.mem, s.place, r0, Front(q));
        assert t in s.mem && t != s.avail[0];
        assert Next(m, t, Last(q)) == Next(s.mem, t, Last(q)) == Next(s'.mem, t, Last(q));
      }
    }
  }

  lemma ForkSharers(s: Spaces, parent: FrameNo, m: Mem, q: Path, f: FrameNo)
    requires Shape(s) && parent in s.roots && s.avail != [] && SoftCopied(s, parent, m)
    requires 1 <= |q| <= 4
    ensures Sharers(Child(s, parent, m), q, f) ==
            Sharers(s, q, f) + (if WalkTo(s.mem, parent, q) == Some(f) then {s.avail[0]} else {})
    ensures s.avail[0] !in Sharers(s, q, f)
  {
    var c := s.avail[0];
    var s' := Child(s, parent, m);
    assert c !in s.roots;
    forall r | r in s'.roots
      ensures WalkTo(s'.mem, r, q) == if r == c then WalkTo(s.mem, parent, q) else WalkTo(s.mem, r, q)
    {
      ForkWalk(s, parent, m, r, q);
    }
  }

  lemma ForkShape(s: Spaces, parent: FrameNo, m: Mem)
    requires Shape(s) && parent in s.roots && s.avail != [] && SoftCopied(s, parent, m)
    ensures Shape(Child(s, parent, m))
  {
    var c := s.avail[0];
    var s' := Child(s, parent, m);
    forall f, j: Idx | f in s'.place && |s'.place[f]| <= 3
      ensures At(s'.mem, f)[j].valid <==> At(s'.mem, f)[j].page
      ensures Linked(s'.place, s'.place[f], j, At(s'.mem, f)[j])
    {
      var t := if f == c then parent else f;
      assert At(s'.mem, f)[j] == At(m, t)[j];
      assert At(s.mem, t)[j].valid <==> At(s.mem, t)[j].page;
      assert Linked(s.place, s.place[t], j, At(s.mem, t)[j]);
    }
  }

  lemma ForkPrivateAt(s: Spaces, parent: FrameNo, m: Mem, f: FrameNo, j: Idx)
    requires Shape(s) && Private(s) && parent in s.roots && s.avail != [] && SoftCopied(s, parent, m)
    requires f in s.place && |s.place[f]| == 3 && At(m, f)[j].valid && At(m, f)[j].ap == RwRw
    requires Sharers(s, s.place[f], f) != {}
    ensures Sharers(Child(s, parent, m), s.place[f] + [j], At(m, f)[j].frame) ==
            Sharers(s, s.place[f] + [j], At(s.mem, f)[j].frame)
    ensures At(m, f)[j] == At(s.mem, f)[j]
  {
    assert !Marks(s, parent, f, j);
    var q, g := s.place[f] + [j], At(s.mem, f)[j].frame;
    ForkSharers(s, parent, m, q, g);
    var r :| r in Sharers(s, s.place[f], f);
    WalkStep(s.mem, r, s.place[f], j);
    assert r in Sharers(s, q, g);
    if WalkTo(s.mem, parent, q) == Some(g) {
      assert parent in Sharers(s, q, g);
      OnlyOne(Sharers(s, q, g), r, parent);
    }
  }

  lemma ForkPrivateWord(s: Spaces, parent: FrameNo, m: Mem, f: FrameNo, j: Idx)
    requires Shape(s) && Private(s) && parent in s.roots && s.avail != [] && SoftCopied(s, parent, m)
    requires f in s.place && |s.place[f]| == 3 && At(m, f)[j].valid && At(m, f)[j].ap == RwRw
    requires Sharers(Child(s, parent, m), s.place[f], f) != {}
    ensures |Sharers(Child(s, parent, m), s.place[f] + [j], At(m, f)[j].frame)| <= 1
  {
    ForkSharers(s, parent, m, s.place[f], f);
    assert parent in Sharers(s, s.place[f], f) || Sharers(Child(s, parent, m), s.place[f], f) == Sharers(s, s.place[f], f);
    ForkPrivateAt(s, parent, m, f, j);
  }

  lemma ForkPrivate(s: Spaces, parent: FrameNo, m: Mem)
    requires Shape(s) && Private(s) && parent in s.roots && s.avail != [] && SoftCopied(s, parent, m)
    ensures Private(Child(s, parent, m))
  {
    var s' := Child(s, parent, m);
    forall f, j: Idx | f in s'.place && |s'.place[f]| == 3 && At(s'.mem, f)[j].valid
      && At(s'.mem, f)[j].ap == RwRw && Sharers(s', s'.place[f], f) != {}
      ensures |Sharers(s', s'.place[f] + [j], At(s'.mem, f)[j].frame)| <= 1
    {
      assert s'.place[f] == s.place[f] && At(s'.mem, f) == At(m, f);
      ForkPrivateWord(s, parent, m, f, j);
    }
  }

  /** The guard: no counter the fork is about to raise is at its limit although 16 roots share the table. */
  ghost predicate Countable(s: Spaces, parent: FrameNo) {
    forall f, i: Idx ::
      f in s.place && Marks(s, parent, f, i) && At(s.mem, f)[i].valid && At(s.mem, f)[i].refs == 15 ==>
        |Sharers(s, s.place[f], f)| <= 15
  }

  lemma ForkCounted(s: Spaces, parent: FrameNo, m: Mem)
    requires Shape(s) && Counted(s) && parent in s.roots && s.avail != [] && SoftCopied(s, parent, m)
    ensures Counted(Child(s, parent, m)) <==> Countable(s, parent)
  {
    var s' := Child(s, parent, m);
    forall f, j: Idx | f in s.place && 1 <= |s.place[f]| <= 3 && At(s.mem, f)[j].valid
      ensures f in s'.place && s'.place[f] == s.place[f] && At(s'.mem, f)[j].valid
      ensures |Sharers(s', s.place[f], f)| ==
              |Sharers(s, s.place[f], f)| + if Marks(s, parent, f, j) then 1 else 0
      ensures At(s'.mem, f)[j].refs ==
              At(s.mem, f)[j].refs + if Marks(s, parent, f, j) && At(s.mem, f)[j].refs < 15 then 1 else 0
    {
      ForkSharers(s, parent, m, s.place[f], f);
    }
  }

  // ---------------------------------------------------------------- data abort

  /** How a data abort ends: handled, no such page, or out of memory half way. */
  datatype Outcome = Done(s: Spaces) | Unmapped(s: Spaces) | NoMemory(s: Spaces)

  /** Make the table behind `h` the faulting process's own, going by the counter of its entry `i`. */
  function Own(s: Spaces, h: Hop, i: Idx): Outcome
  {
    var table := Target(s, h);
    var freed := At(s.mem, table)[i := Freed(At(s.mem, table)[i])];
    if At(s.mem, table)[i].refs == 0 then Done(s)
    else if s.avail == [] then NoMemory(s.(mem := s.mem[table := freed]))
    else Done(Redirected(s, h, TableWord(s.avail[0]), freed))
  }

  /** From an entry of an own table downwards; `rest` are the indices still to follow. */
  function Descend(s: Spaces, h: Hop, rest: Path): Outcome
    decreases |rest|
  {
    if rest == [] then
      if s.avail == [] then NoMemory(s)
      else Done(Redirected(s, h, Repointed(At(s.mem, h.parent)[h.pi], s.avail[0]), At(s.mem, Target(s, h))))
    else if !At(s.mem, Target(s, h))[rest[0]].valid then Unmapped(s)
    else match Own(s, h, rest[0])
      case Done(s') => Descend(s', Hop(h.root, h.path + [h.pi], Target(s', h), rest[0]), rest[1..])
      case failed => failed
  }

  /** `mmu_handle_data_abort` for the process with top-level table `root` and the page `va`. */
  function Abort(s: Spaces, root: FrameNo, va: Path): Outcome
    requires |va| == 4
  {
    if !At(s.mem, root)[va[0]].valid then Unmapped(s)
    else Descend(s, Hop(root, [], root, va[0]), va[1..])
  }

  /** The process may write the page. */
  ghost predicate Writable(s: Spaces, root: FrameNo, va: Path)
    requires |va| == 4
  {
    && root in s.roots
    && WalkTo(s.mem, root, Front(va)).Some?
    && var w := At(s.mem, WalkTo(s.mem, root, Front(va)).value)[Last(va)];
       w.valid && w.ap == RwRw
  }

  /** A counted table is copied. */
  lemma CopyRedirects(s: Spaces, h: Hop, i: Idx)
    requires Shape(s) && Spot(s, h) && |h.path| <= 2 && s.avail != [] && At(s.mem, Target(s, h))[i].refs > 0
    ensures var page := At(s.mem, Target(s, h))[i := Freed(At(s.mem, Target(s, h))[i])];
            && Redirects(s, h, TableWord(s.avail[0]), page)
            && Own(s, h, i) == Done(Redirected(s, h, TableWord(s.avail[0]), page))
            && Shape(Own(s, h, i).s)
            && At(Own(s, h, i).s.mem, s.avail[0]) == page
  {
    var page := At(s.mem, Target(s, h))[i := Freed(At(s.mem, Target(s, h))[i])];
    SitePlaces(s, h);
    assert Redirects(s, h, TableWord(s.avail[0]), page);
    RedirectedShape(s, h, TableWord(s.avail[0]), page);
  }

  lemma OwnDone(s: Spaces, h: Hop, i: Idx)
    requires Inv(s) && Site(s, h) && |h.path| <= 2
    requires At(s.mem, Target(s, h))[i].valid && Own(s, h, i).Done?
    ensures var s' := Own(s, h, i).s;
            Inv(s') && SamePages(s, s') && Site(s', Hop(h.root, h.path + [h.pi], Target(s', h), i))
  {
    var table := Target(s, h);
    var s' := Own(s, h, i).s;
    SitePlaces(s, h);
    if At(s.mem, table)[i].refs == 0 {
      var who := Sharers(s, h.path + [h.pi], table);
      SmallerSet(who, h.root);
      assert who == {h.root};
    } else {
      var w := TableWord(s.avail[0]);
      var freed := At(s.mem, table)[i := Freed(At(s.mem, table)[i])];
      assert Redirects(s, h, w, freed);
      RedirectedShape(s, h, w, freed);
      RedirectedCounted(s, h, w, freed);
      RedirectedPrivate(s, h, w, freed);
      RedirectedSharers(s, h, w, freed, h.path + [h.pi], s.avail[0]);
      RedirectedWord(s, h, w, freed, h.parent, h.pi);
      RedirectedWord(s, h, w, freed, s.avail[0], i);
      forall r, q | r in s.roots && |q| == 4
        ensures PageAt(s'.mem, r, q) == PageAt(s.mem, r, q)
      {
        RedirectedPages(s, h, w, freed, r, q);
      }
    }
  }

  /** Out of memory after the counter was lowered: nobody sees a difference, but the counter may now
      promise too little. */
  lemma OwnNoMemory(s: Spaces, h: Hop, i: Idx)
    requires Inv(s) && Site(s, h) && |h.path| <= 2
    requires At(s.mem, Target(s, h))[i].valid && Own(s, h, i).NoMemory?
    ensures var s' := Own(s, h, i).s;
            && Shape(s') && Private(s') && SamePages(s, s')
            && (Counted(s') <==> |Sharers(s, h.path + [h.pi], Target(s, h))| <= At(s.mem, Target(s, h))[i].refs)
  {
    var table := Target(s, h);
    var m := s.mem[table := At(s.mem, table)[i := Freed(At(s.mem, table)[i])]];
    SitePlaces(s, h);
    FreedBelow(s, table, i, m);
    SameSharersCounted(s, m, table, i);
    SameBelowShape(s, m);
  }

  lemma FreedBelow(s: Spaces, table: FrameNo, i: Idx, m: Mem)
    requires Shape(s) && table in s.place && |s.place[table]| <= 3
    requires m == s.mem[table := At(s.mem, table)[i := Freed(At(s.mem, table)[i])]]
    ensures SameBelow(s, m)
    ensures forall f, j: Idx ::
      At(m, f)[j] == if f == table && j == i then Freed(At(s.mem, table)[i]) else At(s.mem, f)[j]
  {
  }

  lemma SameSharersCounted(s: Spaces, m: Mem, t: FrameNo, i: Idx)
    requires Inv(s) && SameLinks(s, m) && t in s.place && 1 <= |s.place[t]| <= 3 && At(s.mem, t)[i].valid
    requires forall f, j: Idx :: At(m, f)[j] == if f == t && j == i then Freed(At(s.mem, t)[i]) else At(s.mem, f)[j]
    requires At(s.mem, t)[i].refs > 0
    ensures Private(s.(mem := m))
    ensures Counted(s.(mem := m)) <==> |Sharers(s, s.place[t], t)| <= At(s.mem, t)[i].refs
  {
    var s' := s.(mem := m);
    forall q: Path, f | |q| <= 4
      ensures Sharers(s', q, f) == Sharers(s, q, f)
    {
      SameLinksSharers(s, m, q, f);
    }
    if Counted(s') {
      assert |Sharers(s', s.place[t], t)| <= At(m, t)[i].refs + 1;
    }
  }

  /** Last step of a handled abort: the page itself is copied and made writable. */
  lemma OwnPage(s: Spaces, h: Hop)
    requires Inv(s) && Site(s, h) && |h.path| == 3 && s.avail != []
    ensures var s' := Descend(s, h, []).s;
            Inv(s') && SamePages(s, s') && Writable(s', h.root, h.path + [h.pi])
  {
    var w := Repointed(At(s.mem, h.parent)[h.pi], s.avail[0]);
    var page := At(s.mem, Target(s, h));
    var s' := Redirected(s, h, w, page);
    SitePlaces(s, h);
    assert At(s.mem, h.parent)[h.pi].page;
    assert Redirects(s, h, w, page);
    RedirectedShape(s, h, w, page);
    RedirectedCounted(s, h, w, page);
    RedirectedPrivate(s, h, w, page);
    RedirectedWord(s, h, w, page, h.parent, h.pi);
    RedirectedWalk(s, h, w, page, h.root, h.path);
    assert Front(h.path + [h.pi]) == h.path;
    forall r, q: Path | r in s.roots && |q| == 4
      ensures PageAt(s'.mem, r, q) == PageAt(s.mem, r, q)
    {
      RedirectedPages(s, h, w, page, r, q);
    }
  }

  ghost predicate Safe(s: Spaces, out: Outcome, root: FrameNo, va: Path)
    requires |va| == 4
  {
    && SamePages(s, out.s) && Shape(out.s) && Private(out.s)
    && (!out.NoMemory? ==> Counted(out.s))
    && (out.Done? ==> Writable(out.s, root, va))
  }

  lemma LastSafe(s: Spaces, h: Hop)
    requires Inv(s) && Site(s, h) && |h.path| == 3
    ensures Safe(s, Descend(s, h, []), h.root, h.path + [h.pi])
  {
    if s.avail != [] { OwnPage(s, h); }
  }

  lemma FailedSafe(s: Spaces, h: Hop, i: Idx, va: Path)
    requires Inv(s) && Site(s, h) && |h.path| <= 2 && |va| == 4
    requires At(s.mem, Target(s, h))[i].valid && Own(s, h, i).NoMemory?
    ensures Safe(s, Own(s, h, i), h.root, va)
  {
    OwnNoMemory(s, h, i);
  }

  /** The next hop, once the table behind `h` is the process's own. */
  function NextHop(s: Spaces, h: Hop, i: Idx): Hop {
    Hop(h.root, h.path + [h.pi], Target(s, h), i)
  }

  lemma DescendInto(s: Spaces, h: Hop, rest: Path)
    requires rest != [] && At(s.mem, Target(s, h))[rest[0]].valid && Own(s, h, rest[0]).Done?
    ensures var s1 := Own(s, h, rest[0]).s;
            Descend(s, h, rest) == Descend(s1, NextHop(s1, h, rest[0]), rest[1..])
  {}

  lemma {:induction false} DescendSafe(s: Spaces, h: Hop, rest: Path)
    requires Inv(s) && Site(s, h) && |h.path| + |rest| == 3
    ensures Safe(s, Descend(s, h, rest), h.root, h.path + [h.pi] + rest)
    decreases |rest|
  {
    var va := h.path + [h.pi] + rest;
    if rest == [] {
      LastSafe(s, h);
      assert va == h.path + [h.pi];
    } else if At(s.mem, Target(s, h))[rest[0]].valid {
      if Own(s, h, rest[0]).Done? {
        var s1 := Own(s, h, rest[0]).s;
        var h1 := NextHop(s1, h, rest[0]);
        OwnDone(s, h, rest[0]);
        DescendInto(s, h, rest);
        Shifted(h.path + [h.pi], rest);
        DescendSafe(s1, h1, rest[1..]);
        SafeTrans(s, s1, Descend(s, h, rest), h.root, va);
      } else {
        FailedSafe(s, h, rest[0], va);
      }
    }
  }

  lemma SafeTrans(s: Spaces, mid: Spaces, out: Outcome, root: FrameNo, va: Path)
    requires |va| == 4 && SamePages(s, mid) && Safe(mid, out, root, va)
    ensures Safe(s, out, root, va)
  {
  }

  /** A data abort never changes what anybody reads.  Unless memory runs out it also keeps the counters
      honest, and when it succeeds the faulting process may write the page. */
  lemma AbortSafe(s: Spaces, root: FrameNo, va: Path)
    requires Inv(s) && root in s.roots && |va| == 4
    ensures Safe(s, Abort(s, root, va), root, va)
  {
    if At(s.mem, root)[va[0]].valid {
      var h := Hop(root, [], root, va[0]);
      assert Sharers(s, [], root) == {root};
      DescendSafe(s, h, va[1..]);
      assert [] + [va[0]] + va[1..] == va;
    }
  }

  // ---------------------------------------------------------------- user stores

  /** A store by the process into word `off` of a page it may write. */
  function Stored(s: Spaces, root: FrameNo, va: Path, off: Idx, w: Word): Spaces
    requires |va| == 4
  {
    match WalkTo(s.mem, root, va)
    case None => s
    case Some(f) => s.(mem := Put(s.mem, f, off, w))
  }

  lemma StoredWalk(s: Spaces, root: FrameNo, va: Path, off: Idx, w: Word, r: FrameNo, q: Path)
    requires Shape(s) && root in s.roots && |va| == 4 && r in s.roots && |q| <= 4
    ensures WalkTo(Stored(s, root, va, off, w).mem, r, q) == WalkTo(s.mem, r, q)
  {
    if WalkTo(s.mem, root, va).Some? {
      WalkPlace(s.mem, s.place, root, va);
    }
    SameLinksWalk(s, Stored(s, root, va, off, w).mem, r, q);
  }

  lemma StoredInv(s: Spaces, root: FrameNo, va: Path, off: Idx, w: Word)
    requires Inv(s) && root in s.roots && |va| == 4
    ensures Inv(Stored(s, root, va, off, w))
  {
    var s' := Stored(s, root, va, off, w);
    if WalkTo(s.mem, root, va).Some? {
      var g := WalkTo(s.mem, root, va).value;
      WalkPlace(s.mem, s.place, root, va);
      assert forall f :: f in s.place && |s.place[f]| <= 3 ==> At(s'.mem, f) == At(s.mem, f);
      forall q: Path, f | |q| <= 4
        ensures Sharers(s', q, f) == Sharers(s, q, f)
      {
        SameLinksSharers(s, s'.mem, q, f);
      }
      assert Shape(s') by {
        forall f, j: Idx | f in s.place && |s.place[f]| <= 3
          ensures Linked(s.place, s.place[f], j, At(s'.mem, f)[j])
        {
          assert Linked(s.place, s.place[f], j, At(s.mem, f)[j]);
        }
      }
    }
  }

  /** Nobody but the storing process sees the store, and it sees it in that page only. */
  lemma StoredPages(s: Spaces, root: FrameNo, va: Path, off: Idx, w: Word, r: FrameNo, q: Path)
    requires Inv(s) && |va| == 4 && Writable(s, root, va) && r in s.roots && |q| == 4
    ensures PageAt(Stored(s, root, va, off, w).mem, r, q) ==
            if r == root && q == va then Some(PageAt(s.mem, r, q).value[off := w]) else PageAt(s.mem, r, q)
    ensures PageAt(s.mem, root, va).Some?
  {
    StoredWalk(s, root, va, off, w, r, q);
    var t := WalkTo(s.mem, root, Front(va)).value;
    WalkPlace(s.mem, s.place, root, Front(va));
    WalkStep(s.mem, root, Front(va), Last(va));
    assert va == Front(va) + [Last(va)];
    var g := WalkTo(s.mem, root, va).value;
    assert root in Sharers(s, Front(va), t);
    assert root in Sharers(s, va, g);
    WalkPlace(s.mem, s.place, root, va);
    if WalkTo(s.mem, r, q) == Some(g) {
      WalkPlace(s.mem, s.place, r, q);
      assert r in Sharers(s, va, g);
      OnlyOne(Sharers(s, va, g), r, root);
    }
  }
}