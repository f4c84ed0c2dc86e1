/** What the limit of the owner counters costs: a fork that would have to raise a counter past 15 is followed by a
    run of data aborts after which two processes write to the same page, and sixteen forks of one process get there. */
module CowLeaks {
  import opened Options
  import opened Words
  import opened Paging
  import opened Cow
  import opened CowRuns

  // ---------------------------------------------------------------- a shared last-level table with counter zero

  /** `root` reaches page `va` through entry `va[3]` of the last-level table `t`. */
  ghost predicate Through(m: Mem, root: FrameNo, va: Path, t: FrameNo)
    requires |va| == 4
  {
    WalkTo(m, root, Front(va)) == Some(t) && At(m, t)[va[3]].valid
  }

  lemma ThroughWalk(m: Mem, root: FrameNo, va: Path, t: FrameNo)
    requires |va| == 4 && Through(m, root, va, t)
    ensures WalkTo(m, root, va) == Some(At(m, t)[va[3]].frame)
  {
    assert Last(va) == va[3];
  }

  /** What is known at a hop on the way to a page that two roots share the last-level table of. */
  ghost predicate SharedWay(s: Spaces, h: Hop, rest: Path, r2: FrameNo, t3: FrameNo, va: Path) {
    && Shape(s) && Spot(s, h) && |va| == 4 && h.path + [h.pi] + rest == va && r2 in s.roots
    && Through(s.mem, h.root, va, t3) && Through(s.mem, r2, va, t3) && At(s.mem, t3)[va[3]].refs == 0
  }

  /** Two processes that see and may write the same frame at `va`. */
  ghost predicate OneFrame(s: Spaces, r1: FrameNo, r2: FrameNo, va: Path) {
    && |va| == 4 && Shape(s) && r1 in s.roots && r2 in s.roots && Writable(s, r1, va)
    && WalkTo(s.mem, r1, va).Some? && WalkTo(s.mem, r1, va) == WalkTo(s.mem, r2, va)
  }

  lemma SharedLast(s: Spaces, h: Hop, r2: FrameNo, t3: FrameNo, va: Path)
    requires SharedWay(s, h, [], r2, t3, va) && s.avail != []
    ensures var out := Descend(s, h, []);
            out.Done? && out.s.roots == s.roots && OneFrame(out.s, h.root, r2, va)
  {
    assert va == h.path + [h.pi] && Front(va) == h.path;
    var w := Repointed(At(s.mem, h.parent)[h.pi], s.avail[0]);
    var page := At(s.mem, Target(s, h));
    SitePlaces(s, h);
    assert At(s.mem, h.parent)[h.pi].page;
    assert Redirects(s, h, w, page);
    RedirectedShape(s, h, w, page);
    RedirectedWalk(s, h, w, page, h.root, va);
    RedirectedWalk(s, h, w, page, r2, va);
    RedirectedWalk(s, h, w, page, h.root, Front(va));
    RedirectedWord(s, h, w, page, h.parent, h.pi);
  }

  /** On the way to the page the next entry is valid, too. */
  lemma NextValid(s: Spaces, h: Hop, rest: Path, va: Path)
    requires Shape(s) && Spot(s, h) && h.path + [h.pi] + rest == va && rest != [] && |va| == 4
    requires WalkTo(s.mem, h.root, va).Some?
    ensures At(s.mem, Target(s, h))[rest[0]].valid
    ensures WalkTo(s.mem, h.root, h.path + [h.pi]) == Some(Target(s, h))
    ensures WalkTo(s.mem, h.root, h.path + [h.pi] + [rest[0]]) == Some(At(s.mem, Target(s, h))[rest[0]].frame)
  {
    SitePlaces(s, h);
    var p := h.path + [h.pi];
    assert p + [rest[0]] <= va by { Shifted(p, rest); }
    WalkPrefix(s.mem, h.root, p + [rest[0]], va);
    WalkStep(s.mem, h.root, p, rest[0]);
  }

  /** A table on the way whose entry has another counter lies above the shared one. */
  lemma AboveShared(s: Spaces, h: Hop, rest: Path, r2: FrameNo, t3: FrameNo, va: Path)
    requires SharedWay(s, h, rest, r2, t3, va) && rest != []
    requires At(s.mem, Target(s, h))[rest[0]].refs > 0
    ensures h.path + [h.pi] != Front(va) && Target(s, h) != t3 && h.parent != t3
    ensures t3 in s.place && s.place[t3] == Front(va) && |h.path| < 2
  {
    ThroughWalk(s.mem, h.root, va, t3);
    NextValid(s, h, rest, va);
    SitePlaces(s, h);
    WalkPlace(s.mem, s.place, h.root, Front(va));
    var p := h.path + [h.pi];
    assert va[|p|] == rest[0];
  }

  /** A copy of a table above the shared one changes neither walk to it. */
  lemma SharedCopy(s: Spaces, h: Hop, rest: Path, r2: FrameNo, t3: FrameNo, va: Path)
    requires SharedWay(s, h, rest, r2, t3, va) && rest != [] && s.avail != []
    requires At(s.mem, Target(s, h))[rest[0]].refs > 0
    ensures var out := Own(s, h, rest[0]);
            && out.Done? && out.s.roots == s.roots && |out.s.avail| == |s.avail| - 1
            && SharedWay(out.s, NextHop(out.s, h, rest[0]), rest[1..], r2, t3, va)
  {
    var i, t := rest[0], Target(s, h);
    var w, page := TableWord(s.avail[0]), At(s.mem, t)[i := Freed(At(s.mem, t)[i])];
    var p := h.path + [h.pi];
    AboveShared(s, h, rest, r2, t3, va);
    CopyRedirects(s, h, i);
    SharedStay(s, h, rest, r2, t3, va);
    RedirectedWalk(s, h, w, page, h.root, Front(va));
    RedirectedWalk(s, h, w, page, r2, Front(va));
    RedirectedWalk(s, h, w, page, h.root, p);
    RedirectedWord(s, h, w, page, t3, va[3]);
    RedirectedWord(s, h, w, page, h.parent, h.pi);
  }

  lemma SharedStay(s: Spaces, h: Hop, rest: Path, r2: FrameNo, t3: FrameNo, va: Path)
    requires SharedWay(s, h, rest, r2, t3, va) && rest != []
    ensures At(s.mem, Target(s, h))[rest[0]].valid
    ensures SharedWay(s, NextHop(s, h, rest[0]), rest[1..], r2, t3, va)
  {
    ThroughWalk(s.mem, h.root, va, t3);
    NextValid(s, h, rest, va);
    SitePlaces(s, h);
    Shifted(h.path + [h.pi], rest);
  }

  /** The data abort leaves both processes at one frame, whatever it copies above. */
  lemma {:induction false} SharedDescend(s: Spaces, h: Hop, rest: Path, r2: FrameNo, t3: FrameNo, va: Path)
    requires SharedWay(s, h, rest, r2, t3, va) && |s.avail| > |rest|
    ensures var out := Descend(s, h, rest);
            out.Done? && out.s.roots == s.roots && OneFrame(out.s, h.root, r2, va)
    decreases |rest|
  {
    if rest == [] {
      SharedLast(s, h, r2, t3, va);
    } else {
      SharedStay(s, h, rest, r2, t3, va);
      if At(s.mem, Target(s, h))[rest[0]].refs > 0 { SharedCopy(s, h, rest, r2, t3, va); }
      DescendInto(s, h, rest);
      var s1 := Own(s, h, rest[0]).s;
      SharedDescend(s1, NextHop(s1, h, rest[0]), rest[1..], r2, t3, va);
    }
  }

  /** Where a process may write to a page and another one sees every store it makes there. */
  ghost predicate Leak(s: Spaces, r1: FrameNo, r2: FrameNo, va: Path) {
    && |va| == 4 && r1 != r2 && r1 in s.roots && r2 in s.roots && Writable(s, r1, va) && PageAt(s.mem, r2, va).Some?
    && forall off: Idx, w: Word :: PageAt(Stored(s, r1, va, off, w).mem, r2, va) == Some(PageAt(s.mem, r2, va).value[off := w])
  }

  lemma OneFrameLeaks(s: Spaces, r1: FrameNo, r2: FrameNo, va: Path)
    requires OneFrame(s, r1, r2, va) && r1 != r2
    ensures Leak(s, r1, r2, va)
  {
    forall off: Idx, w: Word
      ensures PageAt(Stored(s, r1, va, off, w).mem, r2, va) == Some(PageAt(s.mem, r2, va).value[off := w])
    {
      StoredWalk(s, r1, va, off, w, r2, va);
    }
  }

  /** The counters carry the proof of isolation: where two processes share a last-level table whose entry has
      counter zero, after a data abort of the one the other reads what it stores. */
  lemma UncountedLeaks(s: Spaces, r1: FrameNo, r2: FrameNo, va: Path, t3: FrameNo)
    requires Shape(s) && r1 in s.roots && r2 in s.roots && r1 != r2 && |va| == 4 && |s.avail| >= 4
    requires Through(s.mem, r1, va, t3) && Through(s.mem, r2, va, t3) && At(s.mem, t3)[va[3]].refs == 0
    ensures var out := Abort(s, r1, va);
            out.Done? && Leak(out.s, r1, r2, va)
  {
    FirstHop(s, r1, va, t3);
    var h := Hop(r1, [], r1, va[0]);
    assert [] + [va[0]] + va[1..] == va;
    SharedDescend(s, h, va[1..], r2, t3, va);
    OneFrameLeaks(Abort(s, r1, va).s, r1, r2, va);
  }

  lemma FirstHop(s: Spaces, r: FrameNo, va: Path, t: FrameNo)
    requires Shape(s) && r in s.roots && |va| == 4 && Through(s.mem, r, va, t)
    ensures At(s.mem, r)[va[0]].valid && Site(s, Hop(r, [], r, va[0]))
  {
    WalkPrefix(s.mem, r, [va[0]], Front(va));
    WalkStep(s.mem, r, [], va[0]);
    assert [] + [va[0]] == [va[0]];
    assert Sharers(s, [], r) == {r};
  }

  // ---------------------------------------------------------------- one abort moves one process out

  /** Table `f` lies `d` steps below the roots on the way to page `va`, and there it goes on. */
  ghost predicate OnWay(s: Spaces, f: FrameNo, va: Path, d: nat) {
    |va| == 4 && 1 <= d <= 3 && f in s.place && s.place[f] == va[..d] && At(s.mem, f)[va[d]].valid
  }

  function Refs(s: Spaces, f: FrameNo, va: Path, d: nat): nat
    requires d < |va|
  {
    At(s.mem, f)[va[d]].refs
  }

  predicate TameSet(who: set<FrameNo>, refs: nat, rs: set<FrameNo>, k: nat) { |who| <= refs + 1 || (who == rs && refs == k) }

  /** The counter is honest, or `rs` share the table and the counter is `k`. */
  ghost predicate Tame(s: Spaces, f: FrameNo, va: Path, d: nat, rs: set<FrameNo>, k: nat)
    requires d < |va|
  {
    TameSet(Sharers(s, va[..d], f), Refs(s, f, va, d), rs, k)
  }

  /** One owner leaves a table, and the counter falls with it. */
  lemma LeaveTame(who: set<FrameNo>, refs: nat, rs: set<FrameNo>, k: nat, r: FrameNo)
    requires TameSet(who, refs, rs, k) && r in who && refs > 0 && k > 0
    ensures TameSet(who - {r}, refs - 1, rs - {r}, k - 1)
  {
    SmallerSet(who, r);
  }

  /** Another table keeps its owners and its counter. */
  lemma StayTame(who: set<FrameNo>, refs: nat, rs: set<FrameNo>, k: nat, r: FrameNo)
    requires TameSet(who, refs, rs, k) && r !in who && r in rs && k > 0
    ensures TameSet(who, refs, rs - {r}, k - 1)
  {}

  /** While `r` makes the tables on its way its own: above depth `d` it has left `rs` already. */
  ghost predicate Mid(s: Spaces, va: Path, r: FrameNo, rs: set<FrameNo>, k: nat, d: nat)
    requires k > 0
  {
    forall f, e: nat :: OnWay(s, f, va, e) ==> if e < d then Tame(s, f, va, e, rs - {r}, k - 1) else Tame(s, f, va, e, rs, k)
  }

  /** `rs` share the last-level table `t`, and its counter for the page is `k`. */
  ghost predicate LastTable(s: Spaces, va: Path, t: FrameNo, rs: set<FrameNo>, k: nat) {
    OnWay(s, t, va, 3) && Refs(s, t, va, 3) == k && Sharers(s, va[..3], t) == rs
  }

  /** Process `r` at depth `d`: what `h` leads to is the table at that depth, and the page is mapped. */
  ghost predicate Moving(s: Spaces, h: Hop, va: Path, r: FrameNo, d: nat) {
    && Shape(s) && Site(s, h) && h.root == r && |va| == 4 && 1 <= d <= 4 && h.path + [h.pi] == va[..d]
    && WalkTo(s.mem, r, va).Some?
  }

  lemma OneTable(s: Spaces, q: Path, f: FrameNo, g: FrameNo, r: FrameNo)
    requires r in Sharers(s, q, f) && r in Sharers(s, q, g)
    ensures f == g
  {}

  lemma Alone(s: Spaces, h: Hop, va: Path, r: FrameNo, rs: set<FrameNo>, k: nat, d: nat)
    requires Moving(s, h, va, r, d) && d <= 3 && k > 0 && r in rs && Mid(s, va, r, rs, k, d)
    requires Refs(s, Target(s, h), va, d) == 0
    ensures OnWay(s, Target(s, h), va, d) && Sharers(s, va[..d], Target(s, h)) == {r}
  {
    ReachesTarget(s, h, va, r, d);
    var who := Sharers(s, va[..d], Target(s, h));
    assert Tame(s, Target(s, h), va, d, rs, k);
    SmallerSet(who, r);
    assert who == {r};
  }

  lemma ReachesTarget(s: Spaces, h: Hop, va: Path, r: FrameNo, d: nat)
    requires Moving(s, h, va, r, d) && d <= 3
    ensures OnWay(s, Target(s, h), va, d) && r in Sharers(s, va[..d], Target(s, h))
    ensures WalkTo(s.mem, r, va[..d]) == Some(Target(s, h))
  {
    SitePlaces(s, h);
    assert va[..d] + va[d..] == va && va[d..][0] == va[d];
    NextValid(s, h, va[d..], va);
  }

  /** A table that `r` alone reaches stays as it is. */
  lemma KeepMid(s: Spaces, h: Hop, va: Path, r: FrameNo, rs: set<FrameNo>, k: nat, d: nat)
    requires Moving(s, h, va, r, d) && d <= 3 && k > 0 && r in rs && Mid(s, va, r, rs, k, d)
    requires Refs(s, Target(s, h), va, d) == 0
    ensures Mid(s, va, r, rs, k, d + 1) && Moving(s, NextHop(s, h, va[d]), va, r, d + 1)
  {
    Alone(s, h, va, r, rs, k, d);
    ReachesTarget(s, h, va, r, d);
    forall f, e: nat | OnWay(s, f, va, e) && e == d
      ensures Tame(s, f, va, e, rs - {r}, k - 1)
    {
      assert Tame(s, f, va, d, rs, k);
      if f != Target(s, h) && r in Sharers(s, va[..d], f) { OneTable(s, va[..d], f, Target(s, h), r); }
    }
    assert va[..d] + [va[d]] == va[..d + 1];
  }

  ghost predicate Copies(s: Spaces, h: Hop, va: Path, r: FrameNo, d: nat, page: Page, s1: Spaces) {
    && Moving(s, h, va, r, d) && d <= 3 && s.avail != [] && Refs(s, Target(s, h), va, d) > 0
    && page == At(s.mem, Target(s, h))[va[d] := Freed(At(s.mem, Target(s, h))[va[d]])]
    && s1 == Redirected(s, h, TableWord(s.avail[0]), page)
  }

  /** Counters and owners of one table after `r` got a copy of its own. */
  lemma CopyCounts(s: Spaces, h: Hop, va: Path, r: FrameNo, d: nat, page: Page, s1: Spaces, f: FrameNo, e: nat)
    requires Copies(s, h, va, r, d, page, s1) && OnWay(s1, f, va, e)
    requires Redirects(s, h, TableWord(s.avail[0]), page)
    ensures f == s.avail[0] ==> e == d && Sharers(s1, va[..e], f) == {r}
    ensures f == h.parent ==> Sharers(s1, va[..e], f) == {r}
    ensures f == Target(s, h) ==>
      e == d && Sharers(s1, va[..e], f) == Sharers(s, va[..e], f) - {r} && Refs(s1, f, va, e) + 1 == Refs(s, f, va, e)
    ensures f != s.avail[0] ==> OnWay(s, f, va, e) || f == h.parent
    ensures f != s.avail[0] && f != h.parent && f != Target(s, h) ==>
      Refs(s1, f, va, e) == Refs(s, f, va, e) && Sharers(s1, va[..e], f) == Sharers(s, va[..e], f) - (if e == d then {r} else {})
  {
    SitePlaces(s, h);
    RedirectedSharers(s, h, TableWord(s.avail[0]), page, va[..e], f);
    RedirectedWord(s, h, TableWord(s.avail[0]), page, f, va[e]);
    assert va[..e] == va[..d] ==> e == d by { assert |va[..e]| == e && |va[..d]| == d; }
    if f == h.parent { assert h.path == va[..e]; assert |h.path| == e; }
  }

  lemma CopyMid(s: Spaces, h: Hop, va: Path, r: FrameNo, rs: set<FrameNo>, k: nat, d: nat, page: Page, s1: Spaces)
    requires Copies(s, h, va, r, d, page, s1) && k > 0 && r in rs && Mid(s, va, r, rs, k, d)
    requires Redirects(s, h, TableWord(s.avail[0]), page)
    ensures Mid(s1, va, r, rs, k, d + 1)
  {
    ReachesTarget(s, h, va, r, d);
    forall f, e: nat | OnWay(s1, f, va, e)
      ensures if e < d + 1 then Tame(s1, f, va, e, rs - {r}, k - 1) else Tame(s1, f, va, e, rs, k)
    {
      CopyTame(s, h, va, r, rs, k, d, page, s1, f, e);
    }
  }

  lemma CopyTame(s: Spaces, h: Hop, va: Path, r: FrameNo, rs: set<FrameNo>, k: nat, d: nat, page: Page, s1: Spaces,
                 f: FrameNo, e: nat)
    requires Copies(s, h, va, r, d, page, s1) && k > 0 && r in rs && Mid(s, va, r, rs, k, d)
    requires Redirects(s, h, TableWord(s.avail[0]), page) && OnWay(s1, f, va, e)
    ensures if e < d + 1 then Tame(s1, f, va, e, rs - {r}, k - 1) else Tame(s1, f, va, e, rs, k)
  {
    ReachesTarget(s, h, va, r, d);
    CopyCounts(s, h, va, r, d, page, s1, f, e);
    if f == s.avail[0] || f == h.parent {
      assert |Sharers(s1, va[..e], f)| == 1;
    } else if e == d {
      CopyTameHere(s, h, va, r, rs, k, d, page, s1, f);
    } else {
      assert if e < d then Tame(s, f, va, e, rs - {r}, k - 1) else Tame(s, f, va, e, rs, k);
      assert Sharers(s1, va[..e], f) == Sharers(s, va[..e], f);
    }
  }

  lemma CopyTameHere(s: Spaces, h: Hop, va: Path, r: FrameNo, rs: set<FrameNo>, k: nat, d: nat, page: Page, s1: Spaces,
                     f: FrameNo)
    requires Copies(s, h, va, r, d, page, s1) && k > 0 && r in rs && Mid(s, va, r, rs, k, d)
    requires Redirects(s, h, TableWord(s.avail[0]), page) && OnWay(s1, f, va, d) && f != s.avail[0] && f != h.parent
    ensures Tame(s1, f, va, d, rs - {r}, k - 1)
  {
    ReachesTarget(s, h, va, r, d);
    CopyCounts(s, h, va, r, d, page, s1, f, d);
    var who, refs := Sharers(s, va[..d], f), Refs(s, f, va, d);
    assert Tame(s, f, va, d, rs, k);
    if f == Target(s, h) {
      LeaveTame(who, refs, rs, k, r);
    } else {
      if r in who { OneTable(s, va[..d], f, Target(s, h), r); }
      assert who - {r} == who;
      StayTame(who, refs, rs, k, r);
    }
  }

  /** What one level of an abort by `r` leads to. */
  ghost predicate Moved(s: Spaces, s1: Spaces, va: Path, t: FrameNo, r: FrameNo, rs: set<FrameNo>, k: nat, d: nat)
    requires k > 0 && d <= 3
  {
    && s1.roots == s.roots && |s.avail| <= |s1.avail| + 1 && Mid(s1, va, r, rs, k, d + 1)
    && if d < 3 then LastTable(s1, va, t, rs, k) else LastTable(s1, va, t, rs - {r}, k - 1)
  }

  lemma CopySpot(s: Spaces, h: Hop, va: Path, r: FrameNo, d: nat, page: Page, s1: Spaces)
    requires Copies(s, h, va, r, d, page, s1) && Redirects(s, h, TableWord(s.avail[0]), page)
    ensures WalkTo(s1.mem, r, va).Some? && WalkTo(s1.mem, r, va[..d]) == Some(s.avail[0])
    ensures Sharers(s1, va[..d], s.avail[0]) == {r}
  {
    var n := s.avail[0];
    RedirectedWalk(s, h, TableWord(n), page, r, va);
    RedirectedWalk(s, h, TableWord(n), page, r, va[..d]);
    RedirectedSharers(s, h, TableWord(n), page, va[..d], n);
    assert |va[..d]| == d;
  }

  lemma CopyWords(s: Spaces, h: Hop, va: Path, r: FrameNo, d: nat, page: Page, s1: Spaces)
    requires Copies(s, h, va, r, d, page, s1) && Redirects(s, h, TableWord(s.avail[0]), page)
    ensures Target(s1, h) == s.avail[0] && At(s1.mem, s.avail[0])[va[d]].valid
  {
    ReachesTarget(s, h, va, r, d);
    SitePlaces(s, h);
    RedirectedWord(s, h, TableWord(s.avail[0]), page, h.parent, h.pi);
    RedirectedWord(s, h, TableWord(s.avail[0]), page, s.avail[0], va[d]);
  }

  lemma CopyMoving(s: Spaces, h: Hop, va: Path, r: FrameNo, d: nat, page: Page, s1: Spaces)
    requires Copies(s, h, va, r, d, page, s1) && Redirects(s, h, TableWord(s.avail[0]), page)
    ensures Moving(s1, NextHop(s1, h, va[d]), va, r, d + 1)
  {
    RedirectedShape(s, h, TableWord(s.avail[0]), page);
    CopySpot(s, h, va, r, d, page, s1);
    CopyWords(s, h, va, r, d, page, s1);
    MovesOn(s1, h, va, r, d);
  }

  lemma MovesOn(s: Spaces, h: Hop, va: Path, r: FrameNo, d: nat)
    requires Shape(s) && h.root == r && r in s.roots && |va| == 4 && 1 <= d <= 3 && h.path + [h.pi] == va[..d]
    requires WalkTo(s.mem, r, va).Some? && WalkTo(s.mem, r, va[..d]) == Some(Target(s, h))
    requires Sharers(s, va[..d], Target(s, h)) == {r} && Target(s, h) in s.place && s.place[Target(s, h)] == va[..d]
    requires At(s.mem, Target(s, h))[va[d]].valid
    ensures Moving(s, NextHop(s, h, va[d]), va, r, d + 1)
  {
    assert va[..d] + [va[d]] == va[..d + 1];
  }

  /** The shared last-level table, while `r` copies a table above it or that table itself. */
  lemma CopyLast(s: Spaces, h: Hop, va: Path, r: FrameNo, rs: set<FrameNo>, k: nat, d: nat, page: Page, s1: Spaces, t: FrameNo)
    requires Copies(s, h, va, r, d, page, s1) && Redirects(s, h, TableWord(s.avail[0]), page)
    requires k > 0 && r in rs && LastTable(s, va, t, rs, k)
    ensures if d < 3 then LastTable(s1, va, t, rs, k) else LastTable(s1, va, t, rs - {r}, k - 1)
  {
    ReachesTarget(s, h, va, r, d);
    SitePlaces(s, h);
    RedirectedWord(s, h, TableWord(s.avail[0]), page, t, va[3]);
    RedirectedSharers(s, h, TableWord(s.avail[0]), page, va[..3], t);
    assert |va[..d]| == d && |va[..3]| == 3;
    if d == 3 { OneTable(s, va[..3], t, Target(s, h), r); }
    assert t != s.avail[0];
  }

  /** One level: `r` is left alone with its table, whatever the counter said. */
  lemma MoveLevel(s: Spaces, h: Hop, va: Path, t: FrameNo, r: FrameNo, rs: set<FrameNo>, k: nat, d: nat)
    requires Moving(s, h, va, r, d) && d <= 3 && k > 0 && r in rs && s.avail != []
    requires Mid(s, va, r, rs, k, d) && LastTable(s, va, t, rs, k)
    ensures At(s.mem, Target(s, h))[va[d]].valid
    ensures var out := Own(s, h, va[d]);
            out.Done? && Moving(out.s, NextHop(out.s, h, va[d]), va, r, d + 1) && Moved(s, out.s, va, t, r, rs, k, d)
  {
    ReachesTarget(s, h, va, r, d);
    if d == 3 { OneTable(s, va[..d], t, Target(s, h), r); }
    if Refs(s, Target(s, h), va, d) == 0 {
      KeepMid(s, h, va, r, rs, k, d);
    } else {
      var page := At(s.mem, Target(s, h))[va[d] := Freed(At(s.mem, Target(s, h))[va[d]])];
      var s1 := Own(s, h, va[d]).s;
      CopyRedirects(s, h, va[d]);
      CopyMid(s, h, va, r, rs, k, d, page, s1);
      CopyMoving(s, h, va, r, d, page, s1);
      CopyLast(s, h, va, r, rs, k, d, page, s1, t);
    }
  }

  /** The page itself is copied; counters and owners of tables stay. */
  lemma MovePage(s: Spaces, h: Hop, va: Path, t: FrameNo, r: FrameNo, rs: set<FrameNo>, k: nat)
    requires Moving(s, h, va, r, 4) && k > 0 && s.avail != []
    requires Mid(s, va, r, rs, k, 4) && LastTable(s, va, t, rs - {r}, k - 1)
    ensures var out := Descend(s, h, []);
            && out.Done? && Shape(out.s) && out.s.roots == s.roots && |s.avail| <= |out.s.avail| + 1
            && Mid(out.s, va, r, rs, k, 4) && LastTable(out.s, va, t, rs - {r}, k - 1)
  {
    var w, page := Repointed(At(s.mem, h.parent)[h.pi], s.avail[0]), At(s.mem, Target(s, h));
    var s1 := Descend(s, h, []).s;
    SitePlaces(s, h);
    assert |h.path| == 3 by { assert |va[..4]| == 4; }
    assert At(s.mem, h.parent)[h.pi].page;
    assert Redirects(s, h, w, page);
    RedirectedShape(s, h, w, page);
    forall f, e: nat | f in s.place && |s.place[f]| == e <= 3 && 1 <= e
      ensures f in s1.place && s1.place[f] == s.place[f] && Refs(s1, f, va, e) == Refs(s, f, va, e)
      ensures Sharers(s1, va[..e], f) == Sharers(s, va[..e], f) && (OnWay(s1, f, va, e) <==> OnWay(s, f, va, e))
    {
      RedirectedWord(s, h, w, page, f, va[e]);
      assert |va[..e]| == e;
      RedirectedSharers(s, h, w, page, va[..e], f);
    }
    PageMid(s, s1, va, r, rs, k);
  }

  lemma PageMid(s: Spaces, s1: Spaces, va: Path, r: FrameNo, rs: set<FrameNo>, k: nat)
    requires |va| == 4 && k > 0 && Mid(s, va, r, rs, k, 4)
    requires forall f, e: nat :: OnWay(s1, f, va, e) ==>
      OnWay(s, f, va, e) && Refs(s1, f, va, e) == Refs(s, f, va, e) && Sharers(s1, va[..e], f) == Sharers(s, va[..e], f)
    ensures Mid(s1, va, r, rs, k, 4)
  {
    forall f, e: nat | OnWay(s1, f, va, e)
      ensures Tame(s1, f, va, e, rs - {r}, k - 1)
    {
      assert Tame(s, f, va, e, rs - {r}, k - 1);
    }
  }

  lemma {:induction false} DescendMoves(s: Spaces, h: Hop, va: Path, t: FrameNo, r: FrameNo, rs: set<FrameNo>, k: nat, d: nat)
    requires Moving(s, h, va, r, d) && k > 0 && r in rs && |s.avail| >= 5 - d
    requires Mid(s, va, r, rs, k, d) && if d <= 3 then LastTable(s, va, t, rs, k) else LastTable(s, va, t, rs - {r}, k - 1)
    ensures var out := Descend(s, h, va[d..]);
            && out.Done? && Shape(out.s) && out.s.roots == s.roots && |s.avail| <= |out.s.avail| + (5 - d)
            && Mid(out.s, va, r, rs, k, 4) && LastTable(out.s, va, t, rs - {r}, k - 1)
    decreases 4 - d
  {
    if d == 4 {
      assert va[4..] == [];
      MovePage(s, h, va, t, r, rs, k);
    } else {
      MoveLevel(s, h, va, t, r, rs, k, d);
      assert va[d..][0] == va[d] && va[d..][1..] == va[d + 1..];
      DescendInto(s, h, va[d..]);
      var s1 := Own(s, h, va[d]).s;
      DescendMoves(s1, NextHop(s1, h, va[d]), va, t, r, rs, k, d + 1);
    }
  }

  // ---------------------------------------------------------------- aborts until two are left

  /** All counters on the way to `va` are honest, but for tables that exactly `rs` share, whose counter is `k`. */
  ghost predicate Off(s: Spaces, va: Path, rs: set<FrameNo>, k: nat) {
    forall f, e: nat :: OnWay(s, f, va, e) ==> Tame(s, f, va, e, rs, k)
  }

  /** One process too many for the counter of the last-level table. */
  ghost predicate TooMany(s: Spaces, va: Path, t: FrameNo, rs: set<FrameNo>, k: nat) {
    && Shape(s) && |va| == 4 && Off(s, va, rs, k) && LastTable(s, va, t, rs, k) && rs <= s.roots && |rs| == k + 2
  }

  lemma MemberThrough(s: Spaces, va: Path, t: FrameNo, rs: set<FrameNo>, k: nat, r: FrameNo)
    requires TooMany(s, va, t, rs, k) && r in rs
    ensures Through(s.mem, r, va, t) && At(s.mem, r)[va[0]].valid && Moving(s, Hop(r, [], r, va[0]), va, r, 1)
  {
    assert Front(va) == va[..3];
    assert r in Sharers(s, va[..3], t);
    FirstHop(s, r, va, t);
    ThroughWalk(s.mem, r, va, t);
    assert [] + [va[0]] == va[..1];
  }

  /** An abort by one of them leaves the others with a counter that is one lower. */
  lemma AbortMoves(s: Spaces, va: Path, t: FrameNo, rs: set<FrameNo>, k: nat, r: FrameNo)
    requires TooMany(s, va, t, rs, k) && k > 0 && r in rs && |s.avail| >= 4
    ensures var out := Abort(s, r, va);
            out.Done? && TooMany(out.s, va, t, rs - {r}, k - 1) && |s.avail| <= |out.s.avail| + 4
  {
    MemberThrough(s, va, t, rs, k, r);
    assert Mid(s, va, r, rs, k, 1);
    DescendMoves(s, Hop(r, [], r, va[0]), va, t, r, rs, k, 1);
    SmallerSet(rs, r);
  }

  lemma TwoOf(rs: set<FrameNo>) returns (a: FrameNo, b: FrameNo)
    requires |rs| >= 2
    ensures a in rs && b in rs && a != b
  {
    a :| a in rs;
    SmallerSet(rs, a);
    assert rs - {a} != {};
    b :| b in rs - {a};
  }

  predicate Faults(es: seq<Event>, va: Path) { forall i :: 0 <= i < |es| ==> es[i].Fault? && es[i].va == va }

  lemma LastAbort(s: Spaces, va: Path, t: FrameNo, rs: set<FrameNo>)
    returns (s1: Spaces, r1: FrameNo, r2: FrameNo)
    requires TooMany(s, va, t, rs, 0) && |s.avail| >= 4
    ensures CowStep(s, Fault(r1, va), s1) && Leak(s1, r1, r2, va)
  {
    r1, r2 := TwoOf(rs);
    MemberThrough(s, va, t, rs, 0, r1);
    MemberThrough(s, va, t, rs, 0, r2);
    UncountedLeaks(s, r1, r2, va, t);
    s1 := Abort(s, r1, va).s;
  }

  lemma MoveOne(s: Spaces, va: Path, t: FrameNo, rs: set<FrameNo>, k: nat) returns (r: FrameNo, mid: Spaces)
    requires TooMany(s, va, t, rs, k) && k > 0 && |s.avail| >= 4
    ensures CowStep(s, Fault(r, va), mid) && TooMany(mid, va, t, rs - {r}, k - 1) && |s.avail| <= |mid.avail| + 4
  {
    r :| r in rs;
    AbortMoves(s, va, t, rs, k, r);
    mid := Abort(s, r, va).s;
  }

  /** Enough aborts at one page by different processes bring the counter to zero with two of them left; the next
      abort and every store leak. */
  lemma {:induction false} AbortsLeak(s: Spaces, va: Path, t: FrameNo, rs: set<FrameNo>, k: nat)
    returns (es: seq<Event>, s1: Spaces, r1: FrameNo, r2: FrameNo)
    requires TooMany(s, va, t, rs, k) && |s.avail| >= 4 * k + 4
    ensures |es| == k + 1 && Faults(es, va) && CowRun(s, es, s1) && Leak(s1, r1, r2, va)
    decreases k
  {
    if k == 0 {
      s1, r1, r2 := LastAbort(s, va, t, rs);
      es := [Fault(r1, va)];
      OneStep(s, Fault(r1, va), s1, [], s1);
    } else {
      var r, mid := MoveOne(s, va, t, rs, k);
      var rest;
      rest, s1, r1, r2 := AbortsLeak(mid, va, t, rs - {r}, k - 1);
      es := OneFault(s, va, r, mid, rest, s1);
    }
  }

  lemma OneFault(s: Spaces, va: Path, r: FrameNo, mid: Spaces, rest: seq<Event>, s1: Spaces) returns (es: seq<Event>)
    requires CowStep(s, Fault(r, va), mid) && CowRun(mid, rest, s1) && Faults(rest, va)
    ensures |es| == |rest| + 1 && Faults(es, va) && CowRun(s, es, s1)
  {
    es := [Fault(r, va)] + rest;
    OneStep(s, Fault(r, va), mid, rest, s1);
  }

  lemma OneStep(s: Spaces, e: Event, mid: Spaces, es: seq<Event>, s1: Spaces)
    requires CowStep(s, e, mid) && CowRun(mid, es, s1)
    ensures CowRun(s, [e] + es, s1)
  {
    assert ([e] + es)[1..] == es;
  }

  // ---------------------------------------------------------------- a fork past the limit

  /** The guard fails on the way of `parent` to a page it has mapped: the counter stands at 15 and 16 share the table. */
  ghost predicate Exceeds(s: Spaces, parent: FrameNo, va: Path, f: FrameNo, d: nat) {
    && OnWay(s, f, va, d) && WalkTo(s.mem, parent, va).Some? && WalkTo(s.mem, parent, va[..d]) == Some(f)
    && Refs(s, f, va, d) == 15 && |Sharers(s, va[..d], f)| >= 16
  }

  lemma {:induction false} SameFrom(m: Mem, r: FrameNo, r': FrameNo, p: Path, q: Path)
    requires p <= q && WalkTo(m, r, p) == WalkTo(m, r', p) && p != []
    ensures WalkTo(m, r, q) == WalkTo(m, r', q)
    decreases |q|
  {
    if p != q {
      assert p <= Front(q);
      SameFrom(m, r, r', p, Front(q));
    }
  }

  /** Who shares a table shares what lies below it. */
  lemma SharersBelow(s: Spaces, parent: FrameNo, va: Path, f: FrameNo, d: nat, t: FrameNo)
    requires |va| == 4 && 1 <= d <= 3 && WalkTo(s.mem, parent, va[..d]) == Some(f) && WalkTo(s.mem, parent, va[..3]) == Some(t)
    ensures Sharers(s, va[..d], f) <= Sharers(s, va[..3], t)
  {
    forall r | r in Sharers(s, va[..d], f)
      ensures r in Sharers(s, va[..3], t)
    {
      assert va[..d] <= va[..3];
      SameFrom(s.mem, r, parent, va[..d], va[..3]);
    }
  }

  lemma SameBySize<T>(a: set<T>, b: set<T>)
    requires a <= b && |a| >= |b|
    ensures a == b
  {
    if x :| x in b && x !in a {
      SubsetSize(a, b - {x});
      SmallerSet(b, x);
    }
  }

  /** The last-level table on the way, before the fork: 16 owners, counter 15. */
  lemma FullLast(s: Spaces, parent: FrameNo, va: Path, f: FrameNo, d: nat) returns (t: FrameNo)
    requires Inv(s) && parent in s.roots && Exceeds(s, parent, va, f, d)
    ensures OnWay(s, t, va, 3) && WalkTo(s.mem, parent, va[..3]) == Some(t)
    ensures Refs(s, t, va, 3) == 15 && |Sharers(s, va[..3], t)| == 16
  {
    assert Front(va) == va[..3];
    t := WalkTo(s.mem, parent, va[..3]).value;
    WalkPlace(s.mem, s.place, parent, va[..3]);
    SharersBelow(s, parent, va, f, d, t);
    SubsetSize(Sharers(s, va[..d], f), Sharers(s, va[..3], t));
    assert At(s.mem, t)[Last(va)].valid;
    assert |Sharers(s, s.place[t], t)| <= At(s.mem, t)[va[3]].refs + 1;
  }

  /** One table on the way, after the fork. */
  lemma ForkTame(s: Spaces, parent: FrameNo, m: Mem, va: Path, t: FrameNo, g: FrameNo, e: nat)
    requires Inv(s) && parent in s.roots && s.avail != [] && SoftCopied(s, parent, m)
    requires OnWay(s, t, va, 3) && WalkTo(s.mem, parent, va[..3]) == Some(t) && |Sharers(s, va[..3], t)| == 16
    requires OnWay(Child(s, parent, m), g, va, e)
    ensures Tame(Child(s, parent, m), g, va, e, Sharers(s, va[..3], t) + {s.avail[0]}, 15)
  {
    var s' := Child(s, parent, m);
    assert g in s.place && s.place[g] == va[..e];
    ForkSharers(s, parent, m, va[..e], g);
    ForkRefs(s, parent, m, va, g, e);
    var who := Sharers(s, va[..e], g);
    if WalkTo(s.mem, parent, va[..e]) == Some(g) && Refs(s, g, va, e) == 15 && |who| == 16 {
      FullWay(s, parent, va, t, g, e);
    } else {
      OneMoreOwner(who, s.avail[0]);
    }
  }

  lemma OneMoreOwner(who: set<FrameNo>, c: FrameNo)
    ensures |who + {c}| <= |who| + 1
  {
    if c in who { assert who + {c} == who; }
  }

  /** Sixteen owners of a table on the way are those of the last-level table. */
  lemma FullWay(s: Spaces, parent: FrameNo, va: Path, t: FrameNo, g: FrameNo, e: nat)
    requires |va| == 4 && 1 <= e <= 3 && WalkTo(s.mem, parent, va[..e]) == Some(g) && WalkTo(s.mem, parent, va[..3]) == Some(t)
    requires |Sharers(s, va[..e], g)| == 16 && |Sharers(s, va[..3], t)| == 16
    ensures Sharers(s, va[..e], g) == Sharers(s, va[..3], t)
  {
    SharersBelow(s, parent, va, g, e, t);
    SameBySize(Sharers(s, va[..e], g), Sharers(s, va[..3], t));
  }

  lemma ForkRefs(s: Spaces, parent: FrameNo, m: Mem, va: Path, g: FrameNo, e: nat)
    requires Inv(s) && parent in s.roots && s.avail != [] && SoftCopied(s, parent, m)
    requires OnWay(Child(s, parent, m), g, va, e) && g in s.place && s.place[g] == va[..e]
    ensures |Sharers(s, va[..e], g)| <= Refs(s, g, va, e) + 1
    ensures Refs(Child(s, parent, m), g, va, e)
         == Refs(s, g, va, e) + if WalkTo(s.mem, parent, va[..e]) == Some(g) && Refs(s, g, va, e) < 15 then 1 else 0
  {
    assert At(Child(s, parent, m).mem, g) == At(m, g);
    assert At(s.mem, g)[va[e]].valid;
    assert |Sharers(s, s.place[g], g)| <= At(s.mem, g)[va[e]].refs + 1;
    assert WalkTo(s.mem, parent, va[..e]) == Some(g) <==> Marks(s, parent, g, va[e]);
  }

  lemma ForkTooMany(s: Spaces, parent: FrameNo, m: Mem, va: Path, t: FrameNo)
    requires Inv(s) && parent in s.roots && s.avail != [] && SoftCopied(s, parent, m)
    requires OnWay(s, t, va, 3) && WalkTo(s.mem, parent, va[..3]) == Some(t)
    requires Refs(s, t, va, 3) == 15 && |Sharers(s, va[..3], t)| == 16
    ensures TooMany(Child(s, parent, m), va, t, Sharers(s, va[..3], t) + {s.avail[0]}, 15)
  {
    var s' := Child(s, parent, m);
    var rs := Sharers(s, va[..3], t) + {s.avail[0]};
    ForkShape(s, parent, m);
    ForkSharers(s, parent, m, va[..3], t);
    assert Marks(s, parent, t, va[3]);
    assert t != s.avail[0] && At(s'.mem, t) == At(m, t);
    forall g, e: nat | OnWay(s', g, va, e)
      ensures Tame(s', g, va, e, rs, 15)
    {
      ForkTame(s, parent, m, va, t, g, e);
    }
  }

  lemma ExceedsGuard(s: Spaces, parent: FrameNo, va: Path, f: FrameNo, d: nat)
    requires Exceeds(s, parent, va, f, d)
    ensures !Countable(s, parent)
  {
    assert Marks(s, parent, f, va[d]);
  }

  /** The guard of the run theorem is needed, wherever it concerns a page that is mapped: a fork that breaks it is
      followed by sixteen data aborts at that page after which one process sees what another stores there. */
  lemma ExceedingForkLeaks(s: Spaces, parent: FrameNo, s': Spaces, va: Path, f: FrameNo, d: nat)
    returns (es: seq<Event>, s1: Spaces, r1: FrameNo, r2: FrameNo)
    requires Inv(s) && Forks(s, parent, s') && Exceeds(s, parent, va, f, d) && |s'.avail| >= 64
    ensures !Countable(s, parent)
    ensures |es| == 16 && Faults(es, va) && CowRun(s', es, s1) && Leak(s1, r1, r2, va)
  {
    var m :| SoftCopied(s, parent, m) && s' == Child(s, parent, m);
    var t := FullLast(s, parent, va, f, d);
    ExceedsGuard(s, parent, va, f, d);
    ForkTooMany(s, parent, m, va, t);
    es, s1, r1, r2 := AbortsLeak(s', va, t, Sharers(s, va[..3], t) + {s.avail[0]}, 15);
  }

  /** Every table `parent` reaches leads on to a page, by each of its entries. */
  ghost predicate LeadsOn(s: Spaces, parent: FrameNo) {
    forall f, i: Idx :: Marks(s, parent, f, i) && At(s.mem, f)[i].valid ==> exists va: Path :: PageBelow(s, parent, f, i, va)
  }

  ghost predicate PageBelow(s: Spaces, parent: FrameNo, f: FrameNo, i: Idx, va: Path) {
    f in s.place && |va| == 4 && s.place[f] + [i] <= va && WalkTo(s.mem, parent, va).Some?
  }

  /** Some way to go on after which a process sees what another one stores. */
  ghost predicate LeaksLater(s: Spaces) {
    exists es, s1, r1, r2, va: Path :: CowRun(s, es, s1) && Leak(s1, r1, r2, va)
  }

  lemma Differs(page: Page, w: Word)
    requires page[0] != w
    ensures page[0 := w] != page
  {
    assert page[0 := w][0] == w;
  }

  lemma InvNoLeak(s: Spaces, r1: FrameNo, r2: FrameNo, va: Path)
    requires Inv(s)
    ensures !Leak(s, r1, r2, va)
  {
    if Leak(s, r1, r2, va) {
      var page := PageAt(s.mem, r2, va).value;
      var w := if page[0] == ZERO then TableWord(0) else ZERO;
      Differs(page, w);
      StoredPages(s, r1, va, 0, w, r2, va);
    }
  }

  lemma ExceedsSomewhere(s: Spaces, parent: FrameNo) returns (va: Path, f: FrameNo, d: nat)
    requires Inv(s) && LeadsOn(s, parent) && !Countable(s, parent)
    ensures Exceeds(s, parent, va, f, d)
  {
    var i: Idx;
    f, i :| f in s.place && Marks(s, parent, f, i) && At(s.mem, f)[i].valid && At(s.mem, f)[i].refs == 15
            && |Sharers(s, s.place[f], f)| > 15;
    va :| PageBelow(s, parent, f, i, va);
    d := |s.place[f]|;
    assert va[..d] == (s.place[f] + [i])[..d] == s.place[f] && va[d] == (s.place[f] + [i])[d] == i;
  }

  /** Where every table leads to a page, the guard of a fork fails exactly if the fork can be followed by a run after which
      one process sees what another stores. */
  lemma CountableIff(s: Spaces, parent: FrameNo, s': Spaces)
    requires Inv(s) && Forks(s, parent, s') && LeadsOn(s, parent) && |s'.avail| >= 64
    ensures Countable(s, parent) <==> !LeaksLater(s')
  {
    if Countable(s, parent) {
      ForkStep(s, parent, s.avail[0], s');
      forall es, s1, r1, r2, va: Path | CowRun(s', es, s1)
        ensures !Leak(s1, r1, r2, va)
      {
        CowRefinesEager(s', es, s1);
        InvNoLeak(s1, r1, r2, va);
      }
    } else {
      var va, f, d := ExceedsSomewhere(s, parent);
      var es, s1, r1, r2 := ExceedingForkLeaks(s, parent, s', va, f, d);
      assert CowRun(s', es, s1) && Leak(s1, r1, r2, va);
    }
  }

  // ---------------------------------------------------------------- sixteen forks

  /** The words of table `f` from the `i`th on, as a soft copy leaves them. */
  ghost function MarkedFrom(s: Spaces, root: FrameNo, f: FrameNo, i: nat): (p: seq<Word>)
    requires i <= 512
    ensures |p| == 512 - i
    ensures forall j: Idx :: i <= j ==> p[j - i] == if Marks(s, root, f, j) then Copied(At(s.mem, f)[j]) else At(s.mem, f)[j]
    decreases 512 - i
  {
    if i == 512 then []
    else [if Marks(s, root, f, i) then Copied(At(s.mem, f)[i]) else At(s.mem, f)[i]] + MarkedFrom(s, root, f, i + 1)
  }

  /** A soft copy is always possible. */
  lemma SomeSoftCopy(s: Spaces, root: FrameNo) returns (m: Mem)
    ensures SoftCopied(s, root, m)
  {
    m := map f | f in s.mem :: MarkedFrom(s, root, f, 0);
  }

  /** Root `p` has been forked `j` times, and nobody has written since. */
  ghost predicate Forked(s: Spaces, p: FrameNo, j: nat) {
    && Inv(s) && p in s.roots
    && forall f, i: Idx :: Reaches(s, p, f) && 1 <= |s.place[f]| <= 3 && At(s.mem, f)[i].valid ==>
         At(s.mem, f)[i].refs == j && |Sharers(s, s.place[f], f)| == j + 1
  }

  lemma ForkedTable(s: Spaces, p: FrameNo, j: nat, m: Mem, f: FrameNo, i: Idx)
    requires Forked(s, p, j) && j < 15 && s.avail != [] && SoftCopied(s, p, m)
    requires var s' := Child(s, p, m); Reaches(s', p, f) && 1 <= |s'.place[f]| <= 3 && At(s'.mem, f)[i].valid
    ensures var s' := Child(s, p, m); At(s'.mem, f)[i].refs == j + 1 && |Sharers(s', s'.place[f], f)| == j + 2
  {
    ForkWalk(s, p, m, p, s.place[f]);
    ForkSharers(s, p, m, s.place[f], f);
    assert At(Child(s, p, m).mem, f) == At(m, f);
    assert Reaches(s, p, f) && At(s.mem, f)[i].valid;
    assert Marks(s, p, f, i);
  }

  lemma ForkedOnce(s: Spaces, p: FrameNo, j: nat) returns (s': Spaces)
    requires Forked(s, p, j) && j < 15 && s.avail != []
    ensures CowStep(s, Fork(p, s.avail[0]), s') && Forked(s', p, j + 1) && s'.avail == s.avail[1..]
    ensures forall va: Path :: |va| == 4 && WalkTo(s.mem, p, va).Some? ==> WalkTo(s'.mem, p, va).Some?
  {
    var m := SomeSoftCopy(s, p);
    s' := Child(s, p, m);
    ForkStep(s, p, s.avail[0], s');
    forall f, i: Idx | Reaches(s', p, f) && 1 <= |s'.place[f]| <= 3 && At(s'.mem, f)[i].valid
      ensures At(s'.mem, f)[i].refs == j + 1 && |Sharers(s', s'.place[f], f)| == j + 2
    {
      ForkedTable(s, p, j, m, f, i);
    }
    forall va: Path | |va| == 4 && WalkTo(s.mem, p, va).Some?
      ensures WalkTo(s'.mem, p, va).Some?
    {
      ForkWalk(s, p, m, p, va);
    }
  }

  predicate ForksOf(es: seq<Event>, p: FrameNo) { forall i :: 0 <= i < |es| ==> es[i].Fork? && es[i].parent == p }

  /** Fifteen forks stay within the limit. */
  lemma {:induction false} ForkedOften(s: Spaces, p: FrameNo, j: nat, va: Path) returns (es: seq<Event>, s': Spaces)
    requires Forked(s, p, j) && j <= 15 && |s.avail| >= 15 - j && |va| == 4 && WalkTo(s.mem, p, va).Some?
    ensures |es| == 15 - j && ForksOf(es, p) && CowRun(s, es, s') && Forked(s', p, 15)
    ensures WalkTo(s'.mem, p, va).Some? && |s'.avail| == |s.avail| - (15 - j)
    decreases 15 - j
  {
    if j == 15 {
      es, s' := [], s;
    } else {
      var mid := ForkedOnce(s, p, j);
      var rest;
      rest, s' := ForkedOften(mid, p, j + 1, va);
      es := [Fork(p, s.avail[0])] + rest;
      OneStep(s, Fork(p, s.avail[0]), mid, rest, s');
    }
  }

  /** After fifteen forks the next one exceeds the limit at every page. */
  lemma SixteenthExceeds(s: Spaces, p: FrameNo, va: Path) returns (f: FrameNo)
    requires Forked(s, p, 15) && |va| == 4 && WalkTo(s.mem, p, va).Some?
    ensures Exceeds(s, p, va, f, 3)
  {
    assert Front(va) == va[..3];
    f := WalkTo(s.mem, p, va[..3]).value;
    WalkPlace(s.mem, s.place, p, va[..3]);
    assert At(s.mem, f)[Last(va)].valid;
    assert Reaches(s, p, f);
  }

  /** The run, from one process with a page mapped and all counters at zero: fifteen forks within the limit, a
      sixteenth that exceeds it, sixteen data aborts at the page, and one process sees every store of another. */
  lemma SixteenForksLeak(s: Spaces, p: FrameNo, va: Path)
    returns (forks: seq<Event>, s15: Spaces, s16: Spaces, faults: seq<Event>, s1: Spaces, r1: FrameNo, r2: FrameNo)
    requires Shape(s) && s.roots == {p} && |va| == 4 && WalkTo(s.mem, p, va).Some? && |s.avail| >= 80
    requires forall f, i: Idx :: f in s.place && |s.place[f]| <= 3 && At(s.mem, f)[i].valid ==> At(s.mem, f)[i].refs == 0
    ensures |forks| == 15 && ForksOf(forks, p) && CowRun(s, forks, s15)
    ensures Forks(s15, p, s16) && !Countable(s15, p)
    ensures |faults| == 16 && Faults(faults, va) && CowRun(s16, faults, s1) && Leak(s1, r1, r2, va)
  {
    OneRootInv(s);
    forall f | Reaches(s, p, f)
      ensures Sharers(s, s.place[f], f) == {p}
    {
    }
    assert Forked(s, p, 0);
    forks, s15 := ForkedOften(s, p, 0, va);
    var f := SixteenthExceeds(s15, p, va);
    var m := SomeSoftCopy(s15, p);
    s16 := Child(s15, p, m);
    faults, s1, r1, r2 := ExceedingForkLeaks(s15, p, s16, va, f, 3);
  }
}
