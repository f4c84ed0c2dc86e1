/** The ordinary way to an exit, after a fork: with no store in between it takes the parent's tables along, and a store
    in each region the child uses makes it safe. */
module ExitAfterFork {
  import opened Options
  import opened Words
  import opened Paging
  import opened Cow
  import opened CowExit
  import opened CowRuns
  import opened ExitRuns

  // ---------------------------------------------------------------- no store

  /** One process that no counter counts; it forks, and the child exits.  The parent's level-1 table is given back, and
      the parent still reads its pages through it. */
  lemma ForkExitDangles(s: Spaces, p: FrameNo, va: Path, child: FrameNo, s': Spaces)
    requires Shape(s) && s.roots == {p} && |va| == 4 && WalkTo(s.mem, p, va).Some?
    requires forall f, i: Idx :: f in s.place && |s.place[f]| <= 3 && At(s.mem, f)[i].valid ==> At(s.mem, f)[i].refs == 0
    requires s.avail != [] && child == s.avail[0] && Forks(s, p, s')
    ensures Run(s, [Fork(p, child)], s') && Inv(s') && Kept(s')
    ensures var t1 := At(s.mem, p)[va[0]].frame;
            && !OwnTops(s', child) && Dangles(s', child) && Frees(s', child, t1)
            && WalkTo(TornMem(s', child), p, [va[0]]) == Some(t1)
            && WalkTo(TornMem(s', child), p, va) == WalkTo(s.mem, p, va)
  {
    ForkedOnceKept(s, p, child, s');
    var m :| SoftCopied(s, p, m) && s' == Child(s, p, m);
    TopValid(s, p, va);
    ForkedDangles(s, p, va, m);
  }

  lemma TopValid(s: Spaces, p: FrameNo, va: Path)
    requires Shape(s) && p in s.roots && |va| == 4 && WalkTo(s.mem, p, va).Some?
    ensures At(s.mem, p)[va[0]].valid && p in s.place && s.place[p] == []
  {
    assert [va[0]] <= va;
    WalkPrefix(s.mem, p, [va[0]], va);
    assert [] + [va[0]] == [va[0]];
    WalkStep(s.mem, p, [], va[0]);
  }

  lemma ForkedDangles(s: Spaces, p: FrameNo, va: Path, m: Mem)
    requires Shape(s) && p in s.roots && s.avail != [] && SoftCopied(s, p, m) && |va| == 4 && WalkTo(s.mem, p, va).Some?
    requires At(s.mem, p)[va[0]].refs == 0 && Inv(Child(s, p, m)) && Kept(Child(s, p, m))
    ensures var s', c, t1 := Child(s, p, m), s.avail[0], At(s.mem, p)[va[0]].frame;
            && !OwnTops(s', c) && Dangles(s', c) && Frees(s', c, t1)
            && WalkTo(TornMem(s', c), p, [va[0]]) == Some(t1)
            && WalkTo(TornMem(s', c), p, va) == WalkTo(s.mem, p, va)
  {
    ExitIff(Child(s, p, m), s.avail[0]);
    TopShared(s, p, m, va);
    ForkWalk(s, p, m, p, va);
    StillWalks(Child(s, p, m), s.avail[0], p, va);
  }

  lemma StillWalks(s: Spaces, r: FrameNo, p: FrameNo, va: Path)
    requires Inv(s) && r in s.roots && p in s.roots && r != p && |va| == 4
    ensures WalkTo(TornMem(s, r), p, va) == WalkTo(s.mem, p, va)
    ensures WalkTo(TornMem(s, r), p, [va[0]]) == WalkTo(s.mem, p, [va[0]])
  {
    TornWalk(s, r, p, va);
    TornWalk(s, r, p, [va[0]]);
  }

  lemma ForkedOnceKept(s: Spaces, p: FrameNo, child: FrameNo, s': Spaces)
    requires Shape(s) && s.roots == {p} && s.avail != [] && child == s.avail[0] && Forks(s, p, s')
    requires forall f, i: Idx :: f in s.place && |s.place[f]| <= 3 && At(s.mem, f)[i].valid ==> At(s.mem, f)[i].refs == 0
    ensures Run(s, [Fork(p, child)], s') && Inv(s') && Kept(s')
  {
    assert Room(s, p) by {
      forall t, i: Idx | Below(s, t, i) && Marks(s, p, t, i)
        ensures At(s.mem, t)[i].refs == 0
      {
      }
    }
    OneStepRun(s, Fork(p, child), s');
    OneRootRuns(s, [Fork(p, child)], s');
  }

  lemma OneStepRun(s: Spaces, e: Event, s': Spaces)
    requires Step(s, e, s')
    ensures Run(s, [e], s')
  {
    assert [e][1..] == [];
    assert Run(s', [e][1..], s');
  }

  /** After the fork both top-level tables lead to the same level-1 table, by an entry that counts nobody. */
  lemma TopShared(s: Spaces, p: FrameNo, m: Mem, va: Path)
    requires Shape(s) && p in s.roots && s.avail != [] && SoftCopied(s, p, m) && |va| == 4 && WalkTo(s.mem, p, va).Some?
    requires At(s.mem, p)[va[0]].refs == 0
    ensures var s', c, t1 := Child(s, p, m), s.avail[0], At(s.mem, p)[va[0]].frame;
            && c != p && Shape(s') && !OwnTops(s', c) && Frees(s', c, t1) && WalkTo(s'.mem, p, [va[0]]) == Some(t1)
  {
    var s', c, i := Child(s, p, m), s.avail[0], va[0];
    assert [i] <= va;
    WalkPrefix(s.mem, p, [i], va);
    assert [] + [i] == [i];
    WalkStep(s.mem, p, [], i);
    ForkShape(s, p, m);
    assert s.place[p] == [] && !Marks(s, p, p, i);
    assert At(s'.mem, c)[i] == At(s'.mem, p)[i] == At(s.mem, p)[i];
    TopFreed(s', c, i);
    ForkWalk(s, p, m, p, [i]);
    assert p in Sharers(s', [i], At(s.mem, p)[i].frame);
  }

  // ---------------------------------------------------------------- a store

  /** What lies above the levels an abort still has to visit stays as it is. */
  lemma {:induction false} DescendAbove(s: Spaces, h: Hop, rest: Path, i: Idx, f: FrameNo)
    requires Inv(s) && Site(s, h) && |h.path| + |rest| == 3 && h.path != [] && Descend(s, h, rest).Done?
    ensures var s1 := Descend(s, h, rest).s;
            Sharers(s1, [i], f) == Sharers(s, [i], f) && At(s1.mem, h.root) == At(s.mem, h.root)
    decreases |rest|
  {
    if rest == [] {
      var w, page := Repointed(At(s.mem, h.parent)[h.pi], s.avail[0]), At(s.mem, Target(s, h));
      SitePlaces(s, h);
      assert At(s.mem, h.parent)[h.pi].page;
      MovedAbove(s, h, w, page, i, f);
    } else {
      var s1 := Own(s, h, rest[0]).s;
      if At(s.mem, Target(s, h))[rest[0]].refs > 0 {
        CopyRedirects(s, h, rest[0]);
        MovedAbove(s, h, TableWord(s.avail[0]), At(s.mem, Target(s, h))[rest[0] := Freed(At(s.mem, Target(s, h))[rest[0]])],
                   i, f);
      }
      OwnDone(s, h, rest[0]);
      DescendInto(s, h, rest);
      DescendAbove(s1, NextHop(s1, h, rest[0]), rest[1..], i, f);
    }
  }

  lemma MovedAbove(s: Spaces, h: Hop, w: Word, page: Page, i: Idx, f: FrameNo)
    requires Redirects(s, h, w, page) && Site(s, h) && h.path != []
    ensures var s1 := Redirected(s, h, w, page);
            Sharers(s1, [i], f) == Sharers(s, [i], f) && At(s1.mem, h.root) == At(s.mem, h.root)
  {
    SitePlaces(s, h);
    RedirectedSharers(s, h, w, page, [i], f);
  }

  lemma Single(p: Path, i: Idx)
    requires p == []
    ensures p + [i] == [i]
  {
  }

  lemma MovedTop(s: Spaces, h: Hop, w: Word, page: Page)
    requires Redirects(s, h, w, page) && Site(s, h) && h.path == []
    ensures var s1 := Redirected(s, h, w, page);
            At(s1.mem, h.root)[h.pi] == w && Sharers(s1, [h.pi], w.frame) == {h.root}
  {
    SitePlaces(s, h);
    RedirectedWord(s, h, w, page, h.root, h.pi);
    Single(h.path, h.pi);
    RedirectedSharers(s, h, w, page, [h.pi], s.avail[0]);
  }

  /** The first level of an abort: afterwards the top-level entry leads to an own table. */
  lemma TopOwned(s: Spaces, root: FrameNo, i: Idx, j: Idx)
    requires Inv(s) && root in s.roots && At(s.mem, root)[i].valid && At(s.mem, At(s.mem, root)[i].frame)[j].valid
    requires Own(s, Hop(root, [], root, i), j).Done?
    ensures var s1 := Own(s, Hop(root, [], root, i), j).s;
            At(s1.mem, root)[i].valid && Sharers(s1, [i], At(s1.mem, root)[i].frame) == {root}
  {
    var h := Hop(root, [], root, i);
    assert Sharers(s, h.path, root) == {root};
    Single(h.path, i);
    if At(s.mem, Target(s, h))[j].refs == 0 {
      SoleOwner(s, h, j);
    } else {
      CopyRedirects(s, h, j);
      MovedTop(s, h, TableWord(s.avail[0]), At(s.mem, Target(s, h))[j := Freed(At(s.mem, Target(s, h))[j])]);
    }
  }

  /** The other entries stay. */
  lemma MovedOthers(s: Spaces, h: Hop, w: Word, page: Page, k: Idx, f: FrameNo)
    requires Redirects(s, h, w, page) && Site(s, h) && h.path == [] && k != h.pi
    ensures var s1 := Redirected(s, h, w, page);
            At(s1.mem, h.root)[k] == At(s.mem, h.root)[k] && Sharers(s1, [k], f) == Sharers(s, [k], f)
  {
    SitePlaces(s, h);
    RedirectedWord(s, h, w, page, h.root, k);
    Single(h.path, h.pi);
    assert [k][0] != [h.pi][0];
    RedirectedSharers(s, h, w, page, [k], f);
  }

  lemma TopOthers(s: Spaces, root: FrameNo, i: Idx, j: Idx, k: Idx, f: FrameNo)
    requires Inv(s) && root in s.roots && At(s.mem, root)[i].valid && At(s.mem, At(s.mem, root)[i].frame)[j].valid
    requires Own(s, Hop(root, [], root, i), j).Done? && k != i
    ensures var s1 := Own(s, Hop(root, [], root, i), j).s;
            At(s1.mem, root)[k] == At(s.mem, root)[k] && Sharers(s1, [k], f) == Sharers(s, [k], f)
  {
    var h := Hop(root, [], root, i);
    assert Sharers(s, h.path, root) == {root};
    if At(s.mem, Target(s, h))[j].refs > 0 {
      CopyRedirects(s, h, j);
      MovedOthers(s, h, TableWord(s.avail[0]), At(s.mem, Target(s, h))[j := Freed(At(s.mem, Target(s, h))[j])], k, f);
    }
  }

  lemma AbortTops(s: Spaces, root: FrameNo, va: Path, f: FrameNo)
    requires Inv(s) && root in s.roots && |va| == 4 && Abort(s, root, va).Done?
    ensures var s1 := Abort(s, root, va).s;
            && At(s1.mem, root)[va[0]].valid && Sharers(s1, [va[0]], At(s1.mem, root)[va[0]].frame) == {root}
            && (forall k: Idx :: k != va[0] ==> At(s1.mem, root)[k] == At(s.mem, root)[k])
            && (forall k: Idx :: k != va[0] ==> Sharers(s1, [k], f) == Sharers(s, [k], f))
  {
    var h, j := Hop(root, [], root, va[0]), va[1..][0];
    assert Sharers(s, [], root) == {root};
    var s1 := Own(s, h, j).s;
    TopOwned(s, root, va[0], j);
    forall k: Idx | k != va[0]
      ensures At(s1.mem, root)[k] == At(s.mem, root)[k] && Sharers(s1, [k], f) == Sharers(s, [k], f)
    {
      TopOthers(s, root, va[0], j, k, f);
    }
    forall k: Idx
      ensures var s2 := Abort(s, root, va).s; At(s2.mem, root) == At(s1.mem, root) && Sharers(s2, [k], f) == Sharers(s1, [k], f)
    {
      AbortRest(s, root, va, k, f);
    }
    AbortRest(s, root, va, va[0], At(s1.mem, root)[va[0]].frame);
  }

  lemma AbortRest(s: Spaces, root: FrameNo, va: Path, k: Idx, f: FrameNo)
    requires Inv(s) && root in s.roots && |va| == 4 && Abort(s, root, va).Done?
    ensures var s1, s2 := Own(s, Hop(root, [], root, va[0]), va[1..][0]).s, Abort(s, root, va).s;
            At(s2.mem, root) == At(s1.mem, root) && Sharers(s2, [k], f) == Sharers(s1, [k], f)
  {
    var h, rest := Hop(root, [], root, va[0]), va[1..];
    assert Sharers(s, [], root) == {root};
    var s1 := Own(s, h, rest[0]).s;
    OwnDone(s, h, rest[0]);
    DescendInto(s, h, rest);
    DescendAbove(s1, NextHop(s1, h, rest[0]), rest[1..], k, f);
  }

  /** The guard of an exit, but for one region. */
  ghost predicate OwnTopsBut(s: Spaces, r: FrameNo, x: Idx) {
    forall i: Idx :: i != x && At(s.mem, r)[i].valid && At(s.mem, r)[i].refs == 0 ==>
      Sharers(s, [i], At(s.mem, r)[i].frame) <= {r}
  }

  /** A data abort makes the region of its page safe to take apart, and leaves the other regions as they are: the exit
      is safe exactly if it was safe but for that region. */
  lemma AbortOwnTops(s: Spaces, root: FrameNo, va: Path)
    requires Inv(s) && root in s.roots && |va| == 4 && Abort(s, root, va).Done?
    ensures OwnTops(Abort(s, root, va).s, root) <==> OwnTopsBut(s, root, va[0])
  {
    var s1 := Abort(s, root, va).s;
    forall i: Idx
      ensures i != va[0] ==> At(s1.mem, root)[i] == At(s.mem, root)[i]
      ensures i != va[0] ==> Sharers(s1, [i], At(s.mem, root)[i].frame) == Sharers(s, [i], At(s.mem, root)[i].frame)
      ensures i == va[0] ==> Sharers(s1, [i], At(s1.mem, root)[i].frame) == {root}
    {
      AbortTops(s, root, va, At(s.mem, root)[i].frame);
    }
  }
}
