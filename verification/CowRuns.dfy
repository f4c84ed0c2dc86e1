/** Copy-on-write fork over whole runs: sharing page tables and pages between processes, and
    copying them when somebody writes, is indistinguishable from copying everything at fork,
    also for those who outlive others. */
module CowRuns {
  import opened Options
  import opened Words
  import opened Paging
  import opened Cow
  import opened CowExit
  import opened CowMaps
  import UserMap

  // ---------------------------------------------------------------- what processes see

  /** The pages a process has mapped, with their contents. */
  type View = imap<Path, Page>

  ghost function ViewOf(m: Mem, root: FrameNo): View {
    imap q: Path | |q| == 4 && PageAt(m, root, q).Some? :: PageAt(m, root, q).value
  }

  ghost function Views(s: Spaces): map<FrameNo, View> {
    map r | r in s.roots :: ViewOf(s.mem, r)
  }

  // ---------------------------------------------------------------- the two machines

  datatype Event =
    | Fork(parent: FrameNo, child: FrameNo)
    | Fault(root: FrameNo, va: Path)
    | Store(root: FrameNo, va: Path, off: Idx, w: Word)
    | Exit(root: FrameNo, others: set<FrameNo>, avail: seq<FrameNo>)
    | Exec(root: FrameNo, avail: seq<FrameNo>)
    | Map(root: FrameNo, va: Path, leaf: Word, page: Page)

  ghost function NoPages(): View { imap[] }

  ghost function WithPage(v: View, va: Path, page: Page): View { v[va := page] }

  /** The simple machine: every process has its own copy of every page. */
  ghost function EagerStep(v: map<FrameNo, View>, e: Event): map<FrameNo, View> {
    match e
    case Fork(parent, child) => if parent in v then v[child := v[parent]] else v
    case Fault(_, _) => v
    case Store(root, va, off, w) =>
      if root in v && va in v[root] then v[root := v[root][va := v[root][va][off := w]]] else v
    case Exit(root, _, _) => v - {root}
    case Exec(root, _) => if root in v then v[root := NoPages()] else v
    case Map(root, va, _, page) => if root in v then v[root := WithPage(v[root], va, page)] else v
  }

  ghost function EagerRun(v: map<FrameNo, View>, es: seq<Event>): map<FrameNo, View>
    decreases |es|
  {
    if es == [] then v else EagerRun(EagerStep(v, es[0]), es[1..])
  }

  /** A fresh frame with the words `page` is mapped at `va`, below tables of the process alone. */
  ghost predicate Maps(s: Spaces, root: FrameNo, va: Path, leaf: Word, page: Page, s': Spaces) {
    && root in s.roots && |va| == 4 && s.avail != [] && leaf.frame == s.avail[0]
    && MapsOwn(Taken(s, page), root, root, va, leaf) && s' == Placed(Taken(s, page), root, va, leaf)
  }

  /** The kernel: a fork that raises no counter past its limit, a data abort that does not run out of memory, a store the
      tables allow, an exit or exec that gives back no frame that somebody else reaches, a mapping below own tables. */
  ghost predicate CowStep(s: Spaces, e: Event, s': Spaces) {
    match e
    case Fork(parent, child) => Forks(s, parent, s') && child == s.avail[0] && Countable(s, parent)
    case Fault(root, va) =>
      root in s.roots && |va| == 4 && !Abort(s, root, va).NoMemory? && s' == Abort(s, root, va).s
    case Store(root, va, off, w) => |va| == 4 && Writable(s, root, va) && s' == Stored(s, root, va, off, w)
    case Exit(root, others, avail) => Exits(s, root, others, avail, s') && FreesOwn(s, root)
    case Exec(root, avail) => Empties(s, root, avail, s') && FreesOwn(s, root)
    case Map(root, va, leaf, page) => Maps(s, root, va, leaf, page, s')
  }

  ghost predicate CowRun(s: Spaces, es: seq<Event>, s': Spaces)
    decreases |es|
  {
    if es == [] then s' == s
    else exists mid :: CowStep(s, es[0], mid) && CowRun(mid, es[1..], s')
  }

  // ---------------------------------------------------------------- one step

  lemma SameViewOf(m: Mem, r: FrameNo, m': Mem, r': FrameNo)
    requires forall q: Path :: |q| == 4 ==> PageAt(m', r', q) == PageAt(m, r, q)
    ensures ViewOf(m', r') == ViewOf(m, r)
  {
  }

  lemma StoredViewOf(m: Mem, m': Mem, root: FrameNo, va: Path, off: Idx, w: Word)
    requires |va| == 4 && PageAt(m, root, va).Some?
    requires forall q: Path :: |q| == 4 ==>
      PageAt(m', root, q) == if q == va then Some(PageAt(m, root, q).value[off := w]) else PageAt(m, root, q)
    ensures ViewOf(m', root) == ViewOf(m, root)[va := ViewOf(m, root)[va][off := w]]
  {
  }

  lemma SameViews(s: Spaces, s': Spaces)
    requires SamePages(s, s')
    ensures Views(s') == Views(s)
  {
    forall r | r in s.roots
      ensures ViewOf(s'.mem, r) == ViewOf(s.mem, r)
    {
      SameViewOf(s.mem, r, s'.mem, r);
    }
  }

  lemma ForkPages(s: Spaces, parent: FrameNo, m: Mem, r: FrameNo, q: Path)
    requires Shape(s) && parent in s.roots && s.avail != [] && SoftCopied(s, parent, m)
    requires |q| == 4 && r in s.roots + {s.avail[0]}
    ensures PageAt(Child(s, parent, m).mem, r, q) == PageAt(s.mem, if r == s.avail[0] then parent else r, q)
  {
    ForkWalk(s, parent, m, r, q);
    var r0 := if r == s.avail[0] then parent else r;
    if WalkTo(s.mem, r0, q).Some? {
      var g := WalkTo(s.mem, r0, q).value;
      WalkPlace(s.mem, s.place, r0, q);
      assert forall i: Idx :: At(m, g)[i] == At(s.mem, g)[i];
      assert At(m, g) == At(s.mem, g);
    }
  }

  lemma ForkStep(s: Spaces, parent: FrameNo, child: FrameNo, s': Spaces)
    requires Inv(s) && CowStep(s, Fork(parent, child), s')
    ensures Inv(s') && Views(s') == EagerStep(Views(s), Fork(parent, child))
  {
    var m :| SoftCopied(s, parent, m) && s' == Child(s, parent, m);
    ForkShape(s, parent, m);
    ForkPrivate(s, parent, m);
    ForkCounted(s, parent, m);
    forall r | r in s'.roots
      ensures ViewOf(s'.mem, r) == ViewOf(s.mem, if r == child then parent else r)
    {
      forall q: Path | |q| == 4
        ensures PageAt(s'.mem, r, q) == PageAt(s.mem, if r == child then parent else r, q)
      {
        ForkPages(s, parent, m, r, q);
      }
      SameViewOf(s.mem, if r == child then parent else r, s'.mem, r);
    }
  }

  lemma StoreViews(s: Spaces, root: FrameNo, va: Path, off: Idx, w: Word, r: FrameNo)
    requires Inv(s) && |va| == 4 && Writable(s, root, va) && r in s.roots
    ensures var m' := Stored(s, root, va, off, w).mem;
            && va in ViewOf(s.mem, root)
            && ViewOf(m', r) == if r == root then ViewOf(s.mem, r)[va := ViewOf(s.mem, r)[va][off := w]]
                                else ViewOf(s.mem, r)
  {
    var m' := Stored(s, root, va, off, w).mem;
    StoredPages(s, root, va, off, w, root, va);
    forall q: Path | |q| == 4
      ensures PageAt(m', r, q) ==
              if r == root && q == va then Some(PageAt(s.mem, r, q).value[off := w]) else PageAt(s.mem, r, q)
    {
      StoredPages(s, root, va, off, w, r, q);
    }
    if r == root {
      StoredViewOf(s.mem, m', root, va, off, w);
    } else {
      SameViewOf(s.mem, r, m', r);
    }
  }

  lemma StoreIsEager(s: Spaces, v: map<FrameNo, View>, root: FrameNo, va: Path, off: Idx, w: Word)
    requires v.Keys == s.roots && root in v && va in v[root]
    requires forall r :: r in s.roots ==>
      ViewOf(s.mem, r) == if r == root then v[r][va := v[r][va][off := w]] else v[r]
    ensures Views(s) == EagerStep(v, Store(root, va, off, w))
  {
  }

  lemma StoreStep(s: Spaces, root: FrameNo, va: Path, off: Idx, w: Word)
    requires Inv(s) && |va| == 4 && Writable(s, root, va)
    ensures Inv(Stored(s, root, va, off, w))
    ensures Views(Stored(s, root, va, off, w)) == EagerStep(Views(s), Store(root, va, off, w))
  {
    StoredInv(s, root, va, off, w);
    forall r | r in s.roots
      ensures var v := ViewOf(s.mem, r);
              && (r == root ==> va in v)
              && ViewOf(Stored(s, root, va, off, w).mem, r) == if r == root then v[va := v[va][off := w]] else v
    {
      StoreViews(s, root, va, off, w, r);
    }
    StoreIsEager(Stored(s, root, va, off, w), Views(s), root, va, off, w);
  }

  lemma ViewsWithout(s: Spaces, s': Spaces, root: FrameNo)
    requires s'.roots == s.roots - {root}
    requires forall r, q: Path :: r in s'.roots && |q| == 4 ==> PageAt(s'.mem, r, q) == PageAt(s.mem, r, q)
    ensures Views(s') == Views(s) - {root}
  {
    forall r | r in s'.roots
      ensures ViewOf(s'.mem, r) == ViewOf(s.mem, r)
    {
      SameViewOf(s.mem, r, s'.mem, r);
    }
  }

  lemma ExitStep(s: Spaces, root: FrameNo, others: set<FrameNo>, avail: seq<FrameNo>, s': Spaces)
    requires Inv(s) && CowStep(s, Exit(root, others, avail), s')
    ensures Inv(s') && Views(s') == EagerStep(Views(s), Exit(root, others, avail))
  {
    ExitSafe(s, root, others, avail);
    ViewsWithout(s, s', root);
  }

  lemma ViewsEmptied(s: Spaces, s': Spaces, root: FrameNo)
    requires s'.roots == s.roots && root in s.roots
    requires forall r, q: Path :: r in s.roots && |q| == 4 ==>
      PageAt(s'.mem, r, q) == if r == root then None else PageAt(s.mem, r, q)
    ensures Views(s') == Views(s)[root := NoPages()]
  {
    forall r | r in s.roots
      ensures ViewOf(s'.mem, r) == if r == root then NoPages() else ViewOf(s.mem, r)
    {
      if r != root { SameViewOf(s.mem, r, s'.mem, r); }
    }
  }

  lemma ExecStep(s: Spaces, root: FrameNo, avail: seq<FrameNo>, s': Spaces)
    requires Inv(s) && CowStep(s, Exec(root, avail), s')
    ensures Inv(s') && Views(s') == EagerStep(Views(s), Exec(root, avail))
  {
    ExecSafe(s, root, avail);
    ViewsEmptied(s, s', root);
  }

  lemma MappedViewOf(m: Mem, m': Mem, root: FrameNo, va: Path, page: Page)
    requires |va| == 4
    requires forall q: Path :: |q| == 4 ==> PageAt(m', root, q) == if q == va then Some(page) else PageAt(m, root, q)
    ensures ViewOf(m', root) == WithPage(ViewOf(m, root), va, page)
  {
  }

  lemma ViewsMapped(s: Spaces, s': Spaces, root: FrameNo, va: Path, page: Page)
    requires s'.roots == s.roots && root in s.roots && |va| == 4
    requires forall r, q: Path :: r in s.roots && |q| == 4 ==>
      PageAt(s'.mem, r, q) == if r == root && q == va then Some(page) else PageAt(s.mem, r, q)
    ensures Views(s') == Views(s)[root := WithPage(Views(s)[root], va, page)]
  {
    MappedViewOf(s.mem, s'.mem, root, va, page);
    forall r | r in s.roots && r != root
      ensures ViewOf(s'.mem, r) == ViewOf(s.mem, r)
    {
      SameViewOf(s.mem, r, s'.mem, r);
    }
  }

  lemma MapStep(s: Spaces, root: FrameNo, va: Path, leaf: Word, page: Page, s': Spaces)
    requires Inv(s) && CowStep(s, Map(root, va, leaf, page), s')
    ensures Inv(s') && Views(s') == EagerStep(Views(s), Map(root, va, leaf, page))
  {
    var s1 := Taken(s, page);
    TakenInv(s, page);
    MapSafe(s1, root, root, va, leaf);
    assert s1.place[root] + va == va;
    ViewsMapped(s, s', root, va, page);
  }

  lemma StepSafe(s: Spaces, e: Event, s': Spaces)
    requires Inv(s) && CowStep(s, e, s')
    ensures Inv(s') && Views(s') == EagerStep(Views(s), e)
  {
    match e
    case Fork(parent, child) =>
      ForkStep(s, parent, child, s');
    case Fault(root, va) =>
      AbortSafe(s, root, va);
      SameViews(s, s');
    case Store(root, va, off, w) =>
      StoreStep(s, root, va, off, w);
    case Exit(root, others, avail) =>
      ExitStep(s, root, others, avail, s');
    case Exec(root, avail) =>
      ExecStep(s, root, avail, s');
    case Map(root, va, leaf, page) =>
      MapStep(s, root, va, leaf, page, s');
  }

  // ---------------------------------------------------------------- whole runs

  /** The main theorem: over every run, what each process reads is what it would read if fork had copied
      every page eagerly, and the invariant that makes this so holds throughout. */
  lemma {:induction false} CowRefinesEager(s: Spaces, es: seq<Event>, s': Spaces)
    requires Inv(s) && CowRun(s, es, s')
    ensures Inv(s') && Views(s') == EagerRun(Views(s), es)
    decreases |es|
  {
    if es != [] {
      var mid :| CowStep(s, es[0], mid) && CowRun(mid, es[1..], s');
      StepSafe(s, es[0], mid);
      CowRefinesEager(mid, es[1..], s');
    }
  }

  /** A tree with one root needs nothing but its shape to start a run from, whatever its counters say. */
  lemma OneRootInv(s: Spaces)
    requires Shape(s) && |s.roots| <= 1
    ensures Inv(s)
  {
    forall p: Path, f
      ensures |Sharers(s, p, f)| <= 1
    {
      SubsetSize(Sharers(s, p, f), s.roots);
    }
  }
}
