/** Mapping a page (`mem_user_map_page` in mem.c) among processes that share tables: if the lowest table on the way that is
    there already belongs to the process alone, nobody else sees the page and the counters stay honest. */
module CowMaps {
  import opened Options
  import opened Words
  import opened Paging
  import opened Cow
  import opened UserMap

  // ---------------------------------------------------------------- one entry more

  /** A frame that hangs nowhere, linked at entry `i` of table `t`. */
  function Attached(s: Spaces, t: FrameNo, i: Idx, w: Word): Spaces
    requires t in s.place
  {
    s.(mem := Put(s.mem, t, i, w), place := s.place[w.frame := s.place[t] + [i]])
  }

  /** The entry is empty, and the frame is blank if it becomes a table. */
  ghost predicate Attaches(s: Spaces, t: FrameNo, i: Idx, w: Word) {
    && Shape(s) && t in s.place && |s.place[t]| <= 3 && !At(s.mem, t)[i].valid
    && w.valid && w.page && w.frame in s.mem && w.frame !in s.place
    && (|s.place[t]| < 3 ==> At(s.mem, w.frame) == Blank(512))
  }

  /** `root` alone reaches `t`. */
  ghost predicate OwnTable(s: Spaces, root: FrameNo, t: FrameNo) {
    t in s.place && Sharers(s, s.place[t], t) == {root}
  }

  lemma AttachedWord(s: Spaces, t: FrameNo, i: Idx, w: Word, f: FrameNo, j: Idx)
    requires Attaches(s, t, i, w)
    ensures At(Attached(s, t, i, w).mem, f)[j] == if f == t && j == i then w else At(s.mem, f)[j]
  {
  }

  lemma {:induction false} AttachedWalk(s: Spaces, t: FrameNo, i: Idx, w: Word, r: FrameNo, q: Path)
    requires Attaches(s, t, i, w) && r in s.roots && |q| <= 4
    ensures WalkTo(Attached(s, t, i, w).mem, r, q) ==
            if q == s.place[t] + [i] && WalkTo(s.mem, r, s.place[t]) == Some(t) then Some(w.frame) else WalkTo(s.mem, r, q)
  {
    if q != [] {
      var p := Front(q);
      SnocIs(q, s.place[t], i);
      AttachedWalk(s, t, i, w, r, p);
      if p == s.place[t] + [i] && WalkTo(s.mem, r, s.place[t]) == Some(t) {
        WalkStep(s.mem, r, s.place[t], i);
        AttachedWord(s, t, i, w, w.frame, Last(q));
      } else if WalkTo(s.mem, r, p).Some? {
        WalkPlace(s.mem, s.place, r, p);
        AttachedWord(s, t, i, w, WalkTo(s.mem, r, p).value, Last(q));
      }
    }
  }

  lemma AttachedSharers(s: Spaces, t: FrameNo, i: Idx, w: Word, q: Path, f: FrameNo)
    requires Attaches(s, t, i, w) && |q| <= 4
    ensures Sharers(Attached(s, t, i, w), q, f) ==
            if q == s.place[t] + [i] && f == w.frame then Sharers(s, s.place[t], t) else Sharers(s, q, f)
  {
    forall r | r in s.roots
      ensures WalkTo(Attached(s, t, i, w).mem, r, q) == Some(f) <==>
              if q == s.place[t] + [i] && f == w.frame then WalkTo(s.mem, r, s.place[t]) == Some(t)
              else WalkTo(s.mem, r, q) == Some(f)
    {
      AttachedWalk(s, t, i, w, r, q);
      if WalkTo(s.mem, r, s.place[t]) == Some(t) { WalkStep(s.mem, r, s.place[t], i); }
      if WalkTo(s.mem, r, q).Some? { WalkPlace(s.mem, s.place, r, q); }
    }
  }

  lemma AttachedShape(s: Spaces, t: FrameNo, i: Idx, w: Word)
    requires Attaches(s, t, i, w)
    ensures Shape(Attached(s, t, i, w))
  {
    var s' := Attached(s, t, i, w);
    forall f, j: Idx | f in s'.place && |s'.place[f]| <= 3
      ensures At(s'.mem, f)[j].valid <==> At(s'.mem, f)[j].page
      ensures Linked(s'.place, s'.place[f], j, At(s'.mem, f)[j])
    {
      AttachedWord(s, t, i, w, f, j);
      if f in s.place && f != w.frame {
        assert Linked(s.place, s.place[f], j, At(s.mem, f)[j]);
        assert At(s.mem, f)[j].valid <==> At(s.mem, f)[j].page;
      }
    }
  }

  lemma AttachedCounted(s: Spaces, t: FrameNo, i: Idx, w: Word, root: FrameNo)
    requires Attaches(s, t, i, w) && Counted(s) && OwnTable(s, root, t)
    ensures Counted(Attached(s, t, i, w))
  {
    var s' := Attached(s, t, i, w);
    forall f, j: Idx | f in s'.place && 1 <= |s'.place[f]| <= 3 && At(s'.mem, f)[j].valid
      ensures |Sharers(s', s'.place[f], f)| <= At(s'.mem, f)[j].refs + 1
    {
      AttachedWord(s, t, i, w, f, j);
      AttachedSharers(s, t, i, w, s'.place[f], f);
    }
  }

  lemma AttachedPrivate(s: Spaces, t: FrameNo, i: Idx, w: Word, root: FrameNo)
    requires Attaches(s, t, i, w) && Private(s) && OwnTable(s, root, t)
    ensures Private(Attached(s, t, i, w))
  {
    var s' := Attached(s, t, i, w);
    forall f, j: Idx | f in s'.place && |s'.place[f]| == 3 && At(s'.mem, f)[j].valid
      && At(s'.mem, f)[j].ap == RwRw && Sharers(s', s'.place[f], f) != {}
      ensures |Sharers(s', s'.place[f] + [j], At(s'.mem, f)[j].frame)| <= 1
    {
      AttachedWord(s, t, i, w, f, j);
      AttachedSharers(s, t, i, w, s'.place[f], f);
      AttachedSharers(s, t, i, w, s'.place[f] + [j], At(s'.mem, f)[j].frame);
    }
  }

  lemma AttachedPages(s: Spaces, t: FrameNo, i: Idx, w: Word, root: FrameNo, r: FrameNo, q: Path)
    requires Attaches(s, t, i, w) && OwnTable(s, root, t) && r in s.roots && |q| == 4
    ensures PageAt(Attached(s, t, i, w).mem, r, q) ==
            if r == root && q == s.place[t] + [i] then Some(At(s.mem, w.frame)) else PageAt(s.mem, r, q)
  {
    AttachedWalk(s, t, i, w, r, q);
    assert WalkTo(s.mem, r, s.place[t]) == Some(t) <==> r in Sharers(s, s.place[t], t);
    if WalkTo(s.mem, r, q).Some? { WalkPlace(s.mem, s.place, r, q); }
  }

  // ---------------------------------------------------------------- a frame more

  /** The allocator hands out a frame with these words. */
  function Taken(s: Spaces, page: Page): Spaces
    requires s.avail != []
  {
    s.(mem := s.mem[s.avail[0] := page], avail := s.avail[1..])
  }

  lemma {:induction false} TakenWalk(s: Spaces, page: Page, r: FrameNo, q: Path)
    requires TreeShape(s) && s.avail != [] && r in s.roots && |q| <= 4
    ensures WalkTo(Taken(s, page).mem, r, q) == WalkTo(s.mem, r, q)
  {
    if q != [] {
      TakenWalk(s, page, r, Front(q));
      if WalkTo(s.mem, r, Front(q)).Some? { WalkPlace(s.mem, s.place, r, Front(q)); }
    }
  }

  lemma TakenSharers(s: Spaces, page: Page, q: Path, f: FrameNo)
    requires TreeShape(s) && s.avail != [] && |q| <= 4
    ensures Sharers(Taken(s, page), q, f) == Sharers(s, q, f)
  {
    forall r | r in s.roots
      ensures WalkTo(Taken(s, page).mem, r, q) == WalkTo(s.mem, r, q)
    {
      TakenWalk(s, page, r, q);
    }
  }

  lemma TakenInv(s: Spaces, page: Page)
    requires Inv(s) && s.avail != []
    ensures Inv(Taken(s, page)) && SamePages(s, Taken(s, page))
  {
    var s' := Taken(s, page);
    assert s.avail[0] !in s.mem;
    forall f | f in s.place
      ensures At(s'.mem, f) == At(s.mem, f)
    {
    }
    forall f, j: Idx | f in s.place && |s.place[f]| <= 3
      ensures Linked(s.place, s.place[f], j, At(s'.mem, f)[j])
    {
      assert Linked(s.place, s.place[f], j, At(s.mem, f)[j]);
    }
    forall q: Path, f | |q| <= 4
      ensures Sharers(s', q, f) == Sharers(s, q, f)
    {
      TakenSharers(s, page, q, f);
    }
    forall r, q: Path | r in s.roots && |q| == 4
      ensures PageAt(s'.mem, r, q) == PageAt(s.mem, r, q)
    {
      TakenWalk(s, page, r, q);
      if WalkTo(s.mem, r, q).Some? { WalkPlace(s.mem, s.place, r, q); }
    }
  }

  lemma GraftedIs(s: Spaces, t: FrameNo, i: Idx)
    requires Inv(s) && t in s.place && |s.place[t]| <= 2 && s.avail != [] && !At(s.mem, t)[i].valid
    ensures var s1, w := Taken(s, Blank(512)), TableWord(s.avail[0]);
            Attaches(s1, t, i, w) && Grafted(s, t, i) == Attached(s1, t, i, w)
  {
    TakenInv(s, Blank(512));
    assert s.avail[0] in s.avail;
  }

  // ---------------------------------------------------------------- the whole way

  /** All processes after the page is mapped; its frame hangs where the page is. */
  function Placed(s: Spaces, t: FrameNo, rest: Path, leaf: Word): Spaces
    requires t in s.place && rest != []
  {
    var out := MapBelow(s, t, rest, leaf).s;
    out.(place := out.place[leaf.frame := s.place[t] + rest])
  }

  /** A page can be mapped below `t`, and the lowest table there is belongs to `root`. */
  ghost predicate MapsOwn(s: Spaces, root: FrameNo, t: FrameNo, rest: Path, leaf: Word) {
    && Shape(s) && t in s.place && rest != [] && |s.place[t]| + |rest| == 4
    && leaf.valid && leaf.page && leaf.refs == 0 && leaf.frame in s.mem && leaf.frame !in s.place
    && MapBelow(s, t, rest, leaf).Mapped? && OwnTable(s, root, Lowest(s, t, rest))
  }

  /** The three ways `mem_user_map_page` goes on from a table. */
  lemma MapsOn(s: Spaces, root: FrameNo, t: FrameNo, rest: Path, leaf: Word)
    requires Inv(s) && MapsOwn(s, root, t, rest, leaf)
    ensures |rest| == 1 ==> Attaches(s, t, rest[0], leaf) && Placed(s, t, rest, leaf) == Attached(s, t, rest[0], leaf)
    ensures |rest| > 1 && At(s.mem, t)[rest[0]].valid ==>
      && MapsOwn(s, root, At(s.mem, t)[rest[0]].frame, rest[1..], leaf)
      && s.place[t] + rest == s.place[At(s.mem, t)[rest[0]].frame] + rest[1..]
      && Placed(s, t, rest, leaf) == Placed(s, At(s.mem, t)[rest[0]].frame, rest[1..], leaf)
    ensures |rest| > 1 && !At(s.mem, t)[rest[0]].valid ==> s.avail != [] && OwnTable(s, root, t)
  {
    Shifted(s.place[t], rest);
    if |rest| == 1 {
      assert rest == [rest[0]];
    } else if At(s.mem, t)[rest[0]].valid {
      assert Linked(s.place, s.place[t], rest[0], At(s.mem, t)[rest[0]]);
    }
  }

  /** A table is missing. */
  lemma MapsGraft(s: Spaces, root: FrameNo, t: FrameNo, rest: Path, leaf: Word)
    requires Inv(s) && MapsOwn(s, root, t, rest, leaf) && |rest| > 1 && !At(s.mem, t)[rest[0]].valid
    requires s.avail != [] && OwnTable(s, root, t)
    ensures var s1, n := Grafted(s, t, rest[0]), s.avail[0];
            && Inv(s1) && MapsOwn(s1, root, n, rest[1..], leaf) && SamePages(s, s1)
            && At(s1.mem, leaf.frame) == At(s.mem, leaf.frame)
            && s.place[t] + rest == s1.place[n] + rest[1..]
            && Placed(s, t, rest, leaf) == Placed(s1, n, rest[1..], leaf)
  {
    var s0, n, i := Taken(s, Blank(512)), s.avail[0], rest[0];
    var s1 := Grafted(s, t, i);
    Shifted(s.place[t], rest);
    TakenInv(s, Blank(512));
    GraftedIs(s, t, i);
    TakenSharers(s, Blank(512), s.place[t], t);
    AttachedShape(s0, t, i, TableWord(n));
    AttachedCounted(s0, t, i, TableWord(n), root);
    AttachedPrivate(s0, t, i, TableWord(n), root);
    AttachedSharers(s0, t, i, TableWord(n), s.place[t] + [i], n);
    assert n !in s.mem && n in s.avail;
    forall r, q: Path | r in s.roots && |q| == 4
      ensures PageAt(s1.mem, r, q) == PageAt(s.mem, r, q)
    {
      AttachedPages(s0, t, i, TableWord(n), root, r, q);
    }
  }

  /** Nobody but `root` sees the page, and the invariant is kept. */
  lemma {:induction false} MapSafe(s: Spaces, root: FrameNo, t: FrameNo, rest: Path, leaf: Word)
    requires Inv(s) && MapsOwn(s, root, t, rest, leaf)
    ensures var s' := Placed(s, t, rest, leaf);
            && Inv(s') && s'.roots == s.roots
            && forall r, q: Path :: r in s.roots && |q| == 4 ==>
                 PageAt(s'.mem, r, q) ==
                 if r == root && q == s.place[t] + rest then Some(At(s.mem, leaf.frame)) else PageAt(s.mem, r, q)
    decreases |rest|
  {
    MapsOn(s, root, t, rest, leaf);
    if |rest| == 1 {
      AttachedShape(s, t, rest[0], leaf);
      AttachedCounted(s, t, rest[0], leaf, root);
      AttachedPrivate(s, t, rest[0], leaf, root);
      assert rest == [rest[0]];
      forall r, q: Path | r in s.roots && |q| == 4
        ensures PageAt(Placed(s, t, rest, leaf).mem, r, q) ==
                if r == root && q == s.place[t] + rest then Some(At(s.mem, leaf.frame)) else PageAt(s.mem, r, q)
      {
        AttachedPages(s, t, rest[0], leaf, root, r, q);
      }
    } else if At(s.mem, t)[rest[0]].valid {
      MapSafe(s, root, At(s.mem, t)[rest[0]].frame, rest[1..], leaf);
    } else {
      MapsGraft(s, root, t, rest, leaf);
      MapSafe(Grafted(s, t, rest[0]), root, s.avail[0], rest[1..], leaf);
    }
  }

  /** Exactly who else finds the page mapped afterwards: whoever reaches the lowest table the mapping writes to. */
  lemma SeenIff(s: Spaces, root: FrameNo, va: Path, leaf: Word, r: FrameNo)
    requires TreeShape(s) && root in s.roots && r in s.roots && |va| == 4 && leaf.valid && leaf.page
    requires MapBelow(s, root, va, leaf).Mapped? && LeafAt(s.mem, r, va) != Some(leaf)
    ensures Lowest(s, root, va) in s.place
    ensures LeafAt(MapBelow(s, root, va, leaf).s.mem, r, va) == Some(leaf)
            <==> r in Sharers(s, s.place[Lowest(s, root, va)], Lowest(s, root, va))
  {
    MapPageFlat(s, root, va, leaf, r, va);
  }
}
