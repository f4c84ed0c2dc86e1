/** The end of a process: what the teardown of its tables (mem.c) does to the others.  It gives back a frame wherever the
    entry that leads to it has counter zero; the frame may still be reached by another process, and the exit is safe
    exactly if none is. */
module CowExit {
  import opened Options
  import opened Words
  import opened Paging
  import opened Cow
  import opened Trees

  // ---------------------------------------------------------------- the teardown of one address space

  /** The tables the teardown of `r` visits. */
  ghost predicate Sweeps(s: Spaces, r: FrameNo, f: FrameNo) {
    Reaches(s, r, f) && |s.place[f]| <= 3
  }

  /** The frames it gives back: the entry that leads there has counter zero. */
  ghost predicate Frees(s: Spaces, r: FrameNo, f: FrameNo) {
    && Reaches(s, r, f) && s.place[f] != []
    && match WalkTo(s.mem, r, Front(s.place[f]))
       case None => false
       case Some(t) => At(s.mem, t)[Last(s.place[f])].refs == 0
  }

  /** Memory after the teardown. */
  ghost function TornMem(s: Spaces, r: FrameNo): Mem {
    map f | f in s.mem :: if Sweeps(s, r, f) then TornPage(At(s.mem, f), 512) else At(s.mem, f)
  }

  /** Nobody else reaches what the teardown gives back. */
  ghost predicate FreesOwn(s: Spaces, r: FrameNo) {
    forall f :: Frees(s, r, f) ==> Sharers(s, s.place[f], f) <= {r}
  }

  /** After the teardown somebody else still walks to a frame that was given back. */
  ghost predicate Dangles(s: Spaces, r: FrameNo) {
    exists r2, q: Path :: r2 in s.roots && r2 != r && |q| <= 4 && EndsFreed(s, r, r2, q)
  }

  ghost predicate EndsFreed(s: Spaces, r: FrameNo, r2: FrameNo, q: Path) {
    match WalkTo(TornMem(s, r), r2, q)
    case None => false
    case Some(f) => Frees(s, r, f)
  }

  /** No table that another root reaches loses an entry: its counters say so. */
  lemma TornStep(s: Spaces, r: FrameNo, r2: FrameNo, q: Path, j: Idx)
    requires Shape(s) && Counted(s) && r in s.roots && r2 in s.roots && r2 != r && |q| <= 3
    requires WalkTo(s.mem, r2, q).Some?
    ensures var t := WalkTo(s.mem, r2, q).value;
            && t in s.place && s.place[t] == q && Next(TornMem(s, r), t, j) == Next(s.mem, t, j)
  {
    var t := WalkTo(s.mem, r2, q).value;
    WalkPlace(s.mem, s.place, r2, q);
    if Sweeps(s, r, t) && At(s.mem, t)[j].valid && At(s.mem, t)[j].refs == 0 {
      assert q != [];
      OnlyOne(Sharers(s, q, t), r, r2);
    }
  }

  lemma {:induction false} TornWalk(s: Spaces, r: FrameNo, r2: FrameNo, q: Path)
    requires Shape(s) && Counted(s) && r in s.roots && r2 in s.roots && r2 != r && |q| <= 4
    ensures WalkTo(TornMem(s, r), r2, q) == WalkTo(s.mem, r2, q)
  {
    if q != [] {
      TornWalk(s, r, r2, Front(q));
      if WalkTo(s.mem, r2, Front(q)).Some? { TornStep(s, r, r2, Front(q), Last(q)); }
    }
  }

  lemma DanglesShared(s: Spaces, r: FrameNo, r2: FrameNo, q: Path)
    requires Shape(s) && Counted(s) && r in s.roots && r2 in s.roots && r2 != r && |q| <= 4 && EndsFreed(s, r, r2, q)
    ensures !FreesOwn(s, r)
  {
    TornWalk(s, r, r2, q);
    WalkPlace(s.mem, s.place, r2, q);
    assert r2 in Sharers(s, q, WalkTo(s.mem, r2, q).value);
  }

  lemma SharedDangles(s: Spaces, r: FrameNo, r2: FrameNo, f: FrameNo)
    requires Shape(s) && Counted(s) && r in s.roots && Frees(s, r, f) && r2 in Sharers(s, s.place[f], f) && r2 != r
    ensures EndsFreed(s, r, r2, s.place[f])
  {
    TornWalk(s, r, r2, s.place[f]);
  }

  /** As long as the counters are honest, a teardown leaves a dangling reference exactly if it gives back a frame that
      another root reached before. */
  lemma DanglesIff(s: Spaces, r: FrameNo)
    requires Shape(s) && Counted(s) && r in s.roots
    ensures Dangles(s, r) <==> !FreesOwn(s, r)
  {
    if Dangles(s, r) {
      var r2, q: Path :| r2 in s.roots && r2 != r && |q| <= 4 && EndsFreed(s, r, r2, q);
      DanglesShared(s, r, r2, q);
    } else if !FreesOwn(s, r) {
      var f :| Frees(s, r, f) && !(Sharers(s, s.place[f], f) <= {r});
      var r2 :| r2 in Sharers(s, s.place[f], f) && r2 != r;
      SharedDangles(s, r, r2, f);
    }
  }

  // ---------------------------------------------------------------- exit

  /** What the exit of `r` gives back: the frames of the teardown, the top-level table, and `others`, the kernel stack and
      the task struct. */
  ghost predicate Returned(s: Spaces, r: FrameNo, others: set<FrameNo>, f: FrameNo) {
    f == r || f in others || Frees(s, r, f)
  }

  ghost function LeftMem(s: Spaces, r: FrameNo, others: set<FrameNo>): Mem {
    map f | f in s.mem && !Returned(s, r, others, f) :: TornMem(s, r)[f]
  }

  /** The machine without the process; frames that nobody reaches any more have no place. */
  ghost function Left(s: Spaces, r: FrameNo, others: set<FrameNo>, avail: seq<FrameNo>): Spaces {
    var s0 := Spaces(LeftMem(s, r, others), s.roots - {r}, s.place, avail);
    s0.(place := map f | f in s.place && Sharers(s0, s.place[f], f) != {} :: s.place[f])
  }

  /** What the allocator may hand out afterwards, in some order. */
  ghost predicate Supply(s: Spaces, r: FrameNo, others: set<FrameNo>, avail: seq<FrameNo>) {
    && (forall f :: f in avail ==> f !in s.mem || Returned(s, r, others, f))
    && (forall i, j :: 0 <= i < j < |avail| ==> avail[i] != avail[j])
  }

  /** `task_exit`, as far as memory goes. */
  ghost predicate Exits(s: Spaces, r: FrameNo, others: set<FrameNo>, avail: seq<FrameNo>, s': Spaces) {
    && r in s.roots && (forall f :: f in others ==> f !in s.place) && Supply(s, r, others, avail)
    && s' == Left(s, r, others, avail)
  }

  /** What another root reaches stays where it is. */
  lemma LeftTable(s: Spaces, r: FrameNo, others: set<FrameNo>, r2: FrameNo, q: Path)
    requires Shape(s) && FreesOwn(s, r) && r in s.roots && r2 in s.roots && r2 != r && |q| <= 4
    requires forall f :: f in others ==> f !in s.place
    requires WalkTo(s.mem, r2, q).Some?
    ensures var t := WalkTo(s.mem, r2, q).value;
            && t in s.place && s.place[t] == q && t in LeftMem(s, r, others)
            && At(LeftMem(s, r, others), t) == At(TornMem(s, r), t)
  {
    var t := WalkTo(s.mem, r2, q).value;
    WalkPlace(s.mem, s.place, r2, q);
    assert r2 in Sharers(s, q, t);
    assert !Frees(s, r, t);
  }

  lemma {:induction false} LeftWalk(s: Spaces, r: FrameNo, others: set<FrameNo>, r2: FrameNo, q: Path)
    requires Shape(s) && Counted(s) && FreesOwn(s, r) && r in s.roots && r2 in s.roots && r2 != r && |q| <= 4
    requires forall f :: f in others ==> f !in s.place
    ensures WalkTo(LeftMem(s, r, others), r2, q) == WalkTo(s.mem, r2, q)
  {
    if q != [] {
      LeftWalk(s, r, others, r2, Front(q));
      if WalkTo(s.mem, r2, Front(q)).Some? {
        LeftTable(s, r, others, r2, Front(q));
        TornStep(s, r, r2, Front(q), Last(q));
      }
    }
  }

  lemma LeftSharers(s: Spaces, r: FrameNo, others: set<FrameNo>, avail: seq<FrameNo>, q: Path, f: FrameNo)
    requires Shape(s) && Counted(s) && FreesOwn(s, r) && r in s.roots && |q| <= 4
    requires forall f :: f in others ==> f !in s.place
    ensures Sharers(Left(s, r, others, avail), q, f) == Sharers(s, q, f) - {r}
    ensures Sharers(Spaces(LeftMem(s, r, others), s.roots - {r}, s.place, avail), q, f) == Sharers(s, q, f) - {r}
  {
    forall r2 | r2 in s.roots && r2 != r
      ensures WalkTo(LeftMem(s, r, others), r2, q) == WalkTo(s.mem, r2, q)
    {
      LeftWalk(s, r, others, r2, q);
    }
  }

  /** The tables and pages that keep a place are those another root reached. */
  lemma LeftPlace(s: Spaces, r: FrameNo, others: set<FrameNo>, avail: seq<FrameNo>, f: FrameNo)
    requires Inv(s) && FreesOwn(s, r) && Exits(s, r, others, avail, Left(s, r, others, avail))
    ensures f in Left(s, r, others, avail).place <==> f in s.place && Sharers(s, s.place[f], f) - {r} != {}
  {
    if f in s.place { LeftSharers(s, r, others, avail, s.place[f], f); }
  }

  /** One word of a table that keeps its place. */
  lemma LeftWord(s: Spaces, r: FrameNo, others: set<FrameNo>, avail: seq<FrameNo>, f: FrameNo, j: Idx)
    requires Inv(s) && FreesOwn(s, r) && Exits(s, r, others, avail, Left(s, r, others, avail))
    requires f in Left(s, r, others, avail).place
    ensures var w, w' := At(s.mem, f)[j], At(LeftMem(s, r, others), f)[j];
            && f in LeftMem(s, r, others) && f in s.place && f != r
            && w' == if Sweeps(s, r, f) then TornWord(w) else w
  {
    LeftPlace(s, r, others, avail, f);
    var r2 :| r2 in Sharers(s, s.place[f], f) && r2 != r;
    LeftTable(s, r, others, r2, s.place[f]);
  }

  lemma LeftEntry(s: Spaces, r: FrameNo, others: set<FrameNo>, avail: seq<FrameNo>, f: FrameNo, j: Idx)
    requires Inv(s) && FreesOwn(s, r) && Exits(s, r, others, avail, Left(s, r, others, avail))
    requires f in Left(s, r, others, avail).place && |s.place[f]| <= 3
    ensures var s', w := Left(s, r, others, avail), At(LeftMem(s, r, others), f)[j];
            (w.valid <==> w.page) && Linked(s'.place, s.place[f], j, w)
  {
    LeftWord(s, r, others, avail, f, j);
    LeftPlace(s, r, others, avail, f);
    var w := At(s.mem, f)[j];
    assert w.valid <==> w.page;
    assert Linked(s.place, s.place[f], j, w);
    if At(LeftMem(s, r, others), f)[j].valid {
      var r2 :| r2 in Sharers(s, s.place[f], f) && r2 != r;
      WalkStep(s.mem, r2, s.place[f], j);
      assert r2 in Sharers(s, s.place[w.frame], w.frame);
      LeftPlace(s, r, others, avail, w.frame);
    }
  }

  lemma LeftTables(s: Spaces, r: FrameNo, others: set<FrameNo>, avail: seq<FrameNo>)
    requires Inv(s) && FreesOwn(s, r) && Exits(s, r, others, avail, Left(s, r, others, avail))
    ensures var s' := Left(s, r, others, avail); Tables(s'.mem, s'.place) && Leaves(s'.mem, s'.place)
  {
    var s' := Left(s, r, others, avail);
    forall f, j: Idx | f in s'.place && |s'.place[f]| <= 3
      ensures At(s'.mem, f)[j].valid <==> At(s'.mem, f)[j].page
      ensures Linked(s'.place, s'.place[f], j, At(s'.mem, f)[j])
    {
      LeftEntry(s, r, others, avail, f, j);
    }
    forall f | f in s'.place
      ensures f in s'.mem && |s'.place[f]| <= 4
    {
      LeftWord(s, r, others, avail, f, 0);
    }
  }

  lemma LeftRoot(s: Spaces, r: FrameNo, others: set<FrameNo>, avail: seq<FrameNo>, r2: FrameNo)
    requires Inv(s) && FreesOwn(s, r) && Exits(s, r, others, avail, Left(s, r, others, avail))
    requires r2 in s.roots && r2 != r
    ensures r2 in Left(s, r, others, avail).place && s.place[r2] == []
  {
    assert r2 in Sharers(s, [], r2) - {r};
    LeftPlace(s, r, others, avail, r2);
  }

  lemma LeftShape(s: Spaces, r: FrameNo, others: set<FrameNo>, avail: seq<FrameNo>)
    requires Inv(s) && FreesOwn(s, r) && Exits(s, r, others, avail, Left(s, r, others, avail))
    ensures Shape(Left(s, r, others, avail))
  {
    var s' := Left(s, r, others, avail);
    LeftTables(s, r, others, avail);
    forall r2 | r2 in s.roots && r2 != r
      ensures r2 in s'.place && s'.place[r2] == []
    {
      LeftRoot(s, r, others, avail, r2);
    }
    forall f | f in avail
      ensures f !in s'.mem
    {
      assert f !in s.mem || Returned(s, r, others, f);
    }
  }

  lemma LeftCounted(s: Spaces, r: FrameNo, others: set<FrameNo>, avail: seq<FrameNo>)
    requires Inv(s) && FreesOwn(s, r) && Exits(s, r, others, avail, Left(s, r, others, avail))
    ensures Counted(Left(s, r, others, avail))
  {
    var s' := Left(s, r, others, avail);
    forall f, j: Idx | f in s'.place && 1 <= |s'.place[f]| <= 3 && At(s'.mem, f)[j].valid
      ensures |Sharers(s', s'.place[f], f)| <= At(s'.mem, f)[j].refs + 1
    {
      LeftWord(s, r, others, avail, f, j);
      LeftSharers(s, r, others, avail, s.place[f], f);
      SmallerSet(Sharers(s, s.place[f], f), r);
      assert |Sharers(s, s.place[f], f)| <= At(s.mem, f)[j].refs + 1;
    }
  }

  lemma LeftPrivateWord(s: Spaces, r: FrameNo, others: set<FrameNo>, avail: seq<FrameNo>, f: FrameNo, j: Idx)
    requires Inv(s) && FreesOwn(s, r) && Exits(s, r, others, avail, Left(s, r, others, avail))
    requires f in Left(s, r, others, avail).place && |s.place[f]| == 3
    requires var w := At(LeftMem(s, r, others), f)[j]; w.valid && w.ap == RwRw
    ensures var s' := Left(s, r, others, avail);
            |Sharers(s', s.place[f] + [j], At(LeftMem(s, r, others), f)[j].frame)| <= 1
  {
    LeftWord(s, r, others, avail, f, j);
    LeftPlace(s, r, others, avail, f);
    var w := At(s.mem, f)[j];
    assert w.valid && w.ap == RwRw;
    LeftSharers(s, r, others, avail, s.place[f] + [j], w.frame);
    SubsetSize(Sharers(s, s.place[f] + [j], w.frame) - {r}, Sharers(s, s.place[f] + [j], w.frame));
  }

  lemma LeftPrivate(s: Spaces, r: FrameNo, others: set<FrameNo>, avail: seq<FrameNo>)
    requires Inv(s) && FreesOwn(s, r) && Exits(s, r, others, avail, Left(s, r, others, avail))
    ensures Private(Left(s, r, others, avail))
  {
    var s' := Left(s, r, others, avail);
    forall f, j: Idx | f in s'.place && |s'.place[f]| == 3 && At(s'.mem, f)[j].valid
      && At(s'.mem, f)[j].ap == RwRw && Sharers(s', s'.place[f], f) != {}
      ensures |Sharers(s', s'.place[f] + [j], At(s'.mem, f)[j].frame)| <= 1
    {
      LeftPrivateWord(s, r, others, avail, f, j);
    }
  }

  /** The others read what they read before. */
  lemma LeftPages(s: Spaces, r: FrameNo, others: set<FrameNo>, r2: FrameNo, q: Path)
    requires Inv(s) && FreesOwn(s, r) && r in s.roots && r2 in s.roots && r2 != r && |q| == 4
    requires forall f :: f in others ==> f !in s.place
    ensures PageAt(LeftMem(s, r, others), r2, q) == PageAt(s.mem, r2, q)
  {
    LeftWalk(s, r, others, r2, q);
    if WalkTo(s.mem, r2, q).Some? { LeftTable(s, r, others, r2, q); }
  }

  /** An exit that gives back its own frames only is safe for everybody else. */
  lemma ExitSafe(s: Spaces, r: FrameNo, others: set<FrameNo>, avail: seq<FrameNo>)
    requires Inv(s) && FreesOwn(s, r) && Exits(s, r, others, avail, Left(s, r, others, avail))
    ensures var s' := Left(s, r, others, avail);
            && Inv(s')
            && forall r2, q: Path :: r2 in s'.roots && |q| == 4 ==> PageAt(s'.mem, r2, q) == PageAt(s.mem, r2, q)
  {
    LeftShape(s, r, others, avail);
    LeftCounted(s, r, others, avail);
    LeftPrivate(s, r, others, avail);
    forall r2, q: Path | r2 in s.roots && r2 != r && |q| == 4
      ensures PageAt(LeftMem(s, r, others), r2, q) == PageAt(s.mem, r2, q)
    {
      LeftPages(s, r, others, r2, q);
    }
  }

  // ---------------------------------------------------------------- exec

  /** An address space more, with nothing in it. */
  ghost function WithEmpty(s: Spaces, r: FrameNo, page: Page): Spaces {
    s.(mem := s.mem[r := page], roots := s.roots + {r}, place := s.place[r := []])
  }

  ghost predicate NothingIn(page: Page) {
    forall i: Idx :: !page[i].valid && !page[i].page
  }

  lemma {:induction false} EmptyWalk(s: Spaces, r: FrameNo, page: Page, r2: FrameNo, q: Path)
    requires Shape(s) && r !in s.mem && NothingIn(page) && r2 in s.roots + {r} && |q| <= 4
    ensures WalkTo(WithEmpty(s, r, page).mem, r2, q) ==
            if r2 == r then (if q == [] then Some(r) else None) else WalkTo(s.mem, r2, q)
  {
    if q != [] {
      EmptyWalk(s, r, page, r2, Front(q));
      if r2 != r && WalkTo(s.mem, r2, Front(q)).Some? { WalkPlace(s.mem, s.place, r2, Front(q)); }
    }
  }

  lemma EmptySharers(s: Spaces, r: FrameNo, page: Page, q: Path, f: FrameNo)
    requires Shape(s) && r !in s.mem && NothingIn(page) && 1 <= |q| <= 4
    ensures Sharers(WithEmpty(s, r, page), q, f) == Sharers(s, q, f)
  {
    assert r !in s.roots;
    forall r2 | r2 in s.roots + {r}
      ensures WalkTo(WithEmpty(s, r, page).mem, r2, q) == if r2 == r then None else WalkTo(s.mem, r2, q)
    {
      EmptyWalk(s, r, page, r2, q);
    }
  }

  lemma EmptyShape(s: Spaces, r: FrameNo, page: Page)
    requires Shape(s) && r !in s.mem && r !in s.avail && NothingIn(page)
    ensures Shape(WithEmpty(s, r, page))
  {
    var s' := WithEmpty(s, r, page);
    forall f, j: Idx | f in s'.place && |s'.place[f]| <= 3
      ensures At(s'.mem, f)[j].valid <==> At(s'.mem, f)[j].page
      ensures Linked(s'.place, s'.place[f], j, At(s'.mem, f)[j])
    {
      if f != r {
        assert At(s.mem, f)[j].valid <==> At(s.mem, f)[j].page;
        assert Linked(s.place, s.place[f], j, At(s.mem, f)[j]);
      }
    }
  }

  lemma EmptyInv(s: Spaces, r: FrameNo, page: Page)
    requires Inv(s) && r !in s.mem && r !in s.avail && NothingIn(page)
    ensures Inv(WithEmpty(s, r, page))
  {
    var s' := WithEmpty(s, r, page);
    EmptyShape(s, r, page);
    forall f, j: Idx | f in s'.place && 1 <= |s'.place[f]| <= 3 && At(s'.mem, f)[j].valid
      ensures |Sharers(s', s'.place[f], f)| <= At(s'.mem, f)[j].refs + 1
    {
      EmptySharers(s, r, page, s'.place[f], f);
      assert At(s'.mem, f) == At(s.mem, f);
    }
    forall f, j: Idx | f in s'.place && |s'.place[f]| == 3 && At(s'.mem, f)[j].valid
      && At(s'.mem, f)[j].ap == RwRw && Sharers(s', s'.place[f], f) != {}
      ensures |Sharers(s', s'.place[f] + [j], At(s'.mem, f)[j].frame)| <= 1
    {
      EmptySharers(s, r, page, s'.place[f], f);
      EmptySharers(s, r, page, s'.place[f] + [j], At(s'.mem, f)[j].frame);
      assert At(s'.mem, f) == At(s.mem, f);
    }
  }

  lemma EmptyPages(s: Spaces, r: FrameNo, page: Page, r2: FrameNo, q: Path)
    requires Shape(s) && r !in s.mem && NothingIn(page) && r2 in s.roots + {r} && |q| == 4
    ensures PageAt(WithEmpty(s, r, page).mem, r2, q) == if r2 == r then None else PageAt(s.mem, r2, q)
  {
    EmptyWalk(s, r, page, r2, q);
    if r2 != r && WalkTo(s.mem, r2, q).Some? { WalkPlace(s.mem, s.place, r2, q); }
  }

  /** The machine after `task_exec` took the old image of `r` apart: the top-level table stays, empty. */
  ghost function Emptied(s: Spaces, r: FrameNo, avail: seq<FrameNo>): Spaces {
    WithEmpty(Left(s, r, {}, avail), r, TornPage(At(s.mem, r), 512))
  }

  /** The memory part of `task_exec` up to the loading of the new image; top-level entries count nobody, as nothing ever
      makes them. */
  ghost predicate Empties(s: Spaces, r: FrameNo, avail: seq<FrameNo>, s': Spaces) {
    && r in s.roots && Supply(s, r, {}, avail) && r !in avail
    && (forall i: Idx :: At(s.mem, r)[i].valid ==> At(s.mem, r)[i].refs == 0)
    && s' == Emptied(s, r, avail)
  }

  lemma TopEmpty(s: Spaces, r: FrameNo)
    requires Shape(s) && r in s.roots && forall i: Idx :: At(s.mem, r)[i].valid ==> At(s.mem, r)[i].refs == 0
    ensures NothingIn(TornPage(At(s.mem, r), 512))
  {
    forall i: Idx
      ensures !TornPage(At(s.mem, r), 512)[i].valid && !TornPage(At(s.mem, r), 512)[i].page
    {
      assert At(s.mem, r)[i].valid <==> At(s.mem, r)[i].page;
    }
  }

  lemma LeftWithout(s: Spaces, r: FrameNo, others: set<FrameNo>, avail: seq<FrameNo>)
    ensures var l := Left(s, r, others, avail); r !in l.mem && l.roots == s.roots - {r} && l.avail == avail
  {
  }

  lemma BackAgain(roots: set<FrameNo>, r: FrameNo)
    requires r in roots
    ensures roots - {r} + {r} == roots
  {
  }

  lemma ExecInv(s: Spaces, r: FrameNo, avail: seq<FrameNo>)
    requires Inv(s) && FreesOwn(s, r) && Empties(s, r, avail, Emptied(s, r, avail))
    ensures var s', l := Emptied(s, r, avail), Left(s, r, {}, avail);
            && Inv(s') && s'.roots == s.roots && Inv(l) && r !in l.mem && r !in l.avail && l.roots == s.roots - {r}
            && NothingIn(TornPage(At(s.mem, r), 512))
  {
    LeftWithout(s, r, {}, avail);
    ExitSafe(s, r, {}, avail);
    TopEmpty(s, r);
    BackAgain(s.roots, r);
    EmptyInv(Left(s, r, {}, avail), r, TornPage(At(s.mem, r), 512));
  }

  lemma ExecPages(s: Spaces, r: FrameNo, avail: seq<FrameNo>, r2: FrameNo, q: Path)
    requires Inv(s) && FreesOwn(s, r) && Empties(s, r, avail, Emptied(s, r, avail)) && r2 in s.roots && |q| == 4
    ensures PageAt(Emptied(s, r, avail).mem, r2, q) == if r2 == r then None else PageAt(s.mem, r2, q)
  {
    ExecInv(s, r, avail);
    EmptyPages(Left(s, r, {}, avail), r, TornPage(At(s.mem, r), 512), r2, q);
    if r2 != r { LeftPages(s, r, {}, r2, q); }
  }

  /** After an exec that gives back its own frames only, the process has nothing mapped, and the others read what they
      read before. */
  lemma ExecSafe(s: Spaces, r: FrameNo, avail: seq<FrameNo>)
    requires Inv(s) && FreesOwn(s, r) && Empties(s, r, avail, Emptied(s, r, avail))
    ensures Inv(Emptied(s, r, avail)) && Emptied(s, r, avail).roots == s.roots
    ensures forall r2, q: Path :: r2 in s.roots && |q| == 4 ==>
      PageAt(Emptied(s, r, avail).mem, r2, q) == if r2 == r then None else PageAt(s.mem, r2, q)
  {
    ExecInv(s, r, avail);
    forall r2, q: Path | r2 in s.roots && |q| == 4
      ensures PageAt(Emptied(s, r, avail).mem, r2, q) == if r2 == r then None else PageAt(s.mem, r2, q)
    {
      ExecPages(s, r, avail, r2, q);
    }
  }
}
