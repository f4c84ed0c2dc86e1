/** `mem_table_teardown` among all address spaces of the machine: what the sweep of one tree gives back and rewrites, seen
    from the roots of the others. */
module TornSpaces {
  import opened Options
  import opened Words
  import opened Paging
  import opened FrameMap
  import opened KernelPages
  import opened Cow
  import opened CowExit
  import opened Trees
  import opened Teardown
  import ExitAfterFork
  import ExitRuns

  // ---------------------------------------------------------------- every address space is a tree

  /** What hangs below an entry has a path through that entry. */
  lemma {:induction false} EntryPlace(s: Spaces, t: FrameNo, d: nat, i: Idx, g: FrameNo)
    requires Shape(s) && t in s.place && 1 <= d == 4 - |s.place[t]| && g in Entry(s.mem, t, d, i)
    ensures g in s.place && s.place[t] + [i] <= s.place[g]
    decreases d, 0
  {
    var w := At(s.mem, t)[i];
    assert Linked(s.place, s.place[t], i, w);
    if g != w.frame {
      BelowPlace(s, w.frame, d - 1, 512, g);
    }
  }

  lemma {:induction false} BelowPlace(s: Spaces, t: FrameNo, d: nat, n: nat, g: FrameNo)
    requires Shape(s) && t in s.place && 1 <= d == 4 - |s.place[t]| && n <= 512 && g in Below(s.mem, t, d, n)
    ensures g in s.place && s.place[t] < s.place[g]
    decreases d, n + 1
  {
    if g in Entry(s.mem, t, d, n - 1) {
      EntryPlace(s, t, d, n - 1, g);
    } else {
      BelowPlace(s, t, d, n - 1, g);
    }
  }

  lemma EntryIndex(s: Spaces, t: FrameNo, d: nat, i: Idx, g: FrameNo)
    requires Shape(s) && t in s.place && 1 <= d == 4 - |s.place[t]| && g in Entry(s.mem, t, d, i)
    ensures g in s.place && |s.place[t]| < |s.place[g]| && s.place[g][|s.place[t]|] == i
  {
    EntryPlace(s, t, d, i, g);
    assert (s.place[t] + [i])[|s.place[t]|] == i;
  }

  /** Different entries, different paths. */
  lemma EntriesApart(s: Spaces, t: FrameNo, d: nat, i: Idx, j: Idx)
    requires Shape(s) && t in s.place && 1 <= d == 4 - |s.place[t]| && i != j
    ensures Entry(s.mem, t, d, i) !! Entry(s.mem, t, d, j)
  {
    forall g | g in Entry(s.mem, t, d, i)
      ensures g !in Entry(s.mem, t, d, j)
    {
      EntryIndex(s, t, d, i, g);
      if g in Entry(s.mem, t, d, j) { EntryIndex(s, t, d, j, g); }
    }
  }

  /** Every address space is what `mem_table_teardown` expects, whoever shares it. */
  lemma {:induction false} ShapeTree(s: Spaces, t: FrameNo, d: nat)
    requires Shape(s) && t in s.place && 1 <= d == 4 - |s.place[t]|
    ensures Tree(s.mem, t, d)
    decreases d
  {
    forall i: Idx | At(s.mem, t)[i].valid
      ensures t !in Entry(s.mem, t, d, i)
    {
      if t in Entry(s.mem, t, d, i) { EntryPlace(s, t, d, i, t); }
    }
    forall i: Idx, j: Idx | i < j
      ensures Entry(s.mem, t, d, i) !! Entry(s.mem, t, d, j)
    {
      EntriesApart(s, t, d, i, j);
    }
    if d > 1 {
      forall i: Idx | At(s.mem, t)[i].valid
        ensures At(s.mem, t)[i].page && Tree(s.mem, At(s.mem, t)[i].frame, d - 1)
      {
        assert Linked(s.place, s.place[t], i, At(s.mem, t)[i]);
        ShapeTree(s, At(s.mem, t)[i].frame, d - 1);
      }
    }
  }

  // ---------------------------------------------------------------- what is given back, and what is visited

  /** One step further from a table the root reaches. */
  lemma ReachOn(s: Spaces, r: FrameNo, t: FrameNo, i: Idx)
    requires Shape(s) && Reaches(s, r, t) && |s.place[t]| <= 3 && At(s.mem, t)[i].valid
    ensures var f := At(s.mem, t)[i].frame;
            && Reaches(s, r, f) && s.place[f] == s.place[t] + [i]
            && (Frees(s, r, f) <==> At(s.mem, t)[i].refs == 0)
  {
    var f := At(s.mem, t)[i].frame;
    assert Linked(s.place, s.place[t], i, At(s.mem, t)[i]);
    WalkStep(s.mem, r, s.place[t], i);
    SnocIs(s.place[f], s.place[t], i);
  }

  lemma {:induction false} GoneFrees(s: Spaces, r: FrameNo, t: FrameNo, d: nat, i: Idx, f: FrameNo)
    requires Shape(s) && Reaches(s, r, t) && 1 <= d == 4 - |s.place[t]| && f in Gone(s.mem, t, d, i)
    ensures Frees(s, r, f)
    decreases d, 0
  {
    ReachOn(s, r, t, i);
    var w := At(s.mem, t)[i];
    if !(w.refs == 0 && f == w.frame) {
      GoneBelowFrees(s, r, w.frame, d - 1, 512, f);
    }
  }

  lemma {:induction false} GoneBelowFrees(s: Spaces, r: FrameNo, t: FrameNo, d: nat, n: nat, f: FrameNo)
    requires Shape(s) && Reaches(s, r, t) && 1 <= d == 4 - |s.place[t]| && n <= 512 && f in GoneBelow(s.mem, t, d, n)
    ensures Frees(s, r, f)
    decreases d, n + 1
  {
    if f in Gone(s.mem, t, d, n - 1) {
      GoneFrees(s, r, t, d, n - 1, f);
    } else {
      GoneBelowFrees(s, r, t, d, n - 1, f);
    }
  }

  lemma VisitedCase(m: Mem, t: FrameNo, d: nat, i: Idx, f: FrameNo)
    requires 1 <= d && f in Visited(m, t, d, i)
    ensures var w := At(m, t)[i]; w.valid && d > 1 && (f == w.frame || f in VisitedBelow(m, w.frame, d - 1, 512))
  {
  }

  lemma {:induction false} VisitedSweeps(s: Spaces, r: FrameNo, t: FrameNo, d: nat, i: Idx, f: FrameNo)
    requires Shape(s) && Reaches(s, r, t) && 1 <= d == 4 - |s.place[t]| && f in Visited(s.mem, t, d, i)
    ensures Sweeps(s, r, f)
    decreases d, 0
  {
    var w := At(s.mem, t)[i];
    VisitedCase(s.mem, t, d, i, f);
    ReachOn(s, r, t, i);
    if f != w.frame {
      VisitedBelowSweeps(s, r, w.frame, d - 1, 512, f);
    }
  }

  lemma {:induction false} VisitedBelowSweeps(s: Spaces, r: FrameNo, t: FrameNo, d: nat, n: nat, f: FrameNo)
    requires Shape(s) && Reaches(s, r, t) && 1 <= d == 4 - |s.place[t]| && n <= 512 && f in VisitedBelow(s.mem, t, d, n)
    ensures Sweeps(s, r, f)
    decreases d, n + 1
  {
    if f in Visited(s.mem, t, d, n - 1) {
      VisitedSweeps(s, r, t, d, n - 1, f);
    } else {
      VisitedBelowSweeps(s, r, t, d, n - 1, f);
    }
  }

  lemma {:induction false} GoneUp(m: Mem, t: FrameNo, d: nat, n: nat, i: Idx)
    requires 1 <= d && i < n <= 512
    ensures Gone(m, t, d, i) <= GoneBelow(m, t, d, n) && Visited(m, t, d, i) <= VisitedBelow(m, t, d, n)
    decreases n
  {
    if i != n - 1 { GoneUp(m, t, d, n - 1, i); }
  }

  /** The table on the way to `f` after `k` steps. */
  lemma OnTheWay(s: Spaces, r: FrameNo, f: FrameNo, k: nat)
    requires Shape(s) && r in s.roots && Reaches(s, r, f) && k < |s.place[f]|
    ensures var q := s.place[f];
            && WalkTo(s.mem, r, q[..k]).Some? && Next(s.mem, WalkTo(s.mem, r, q[..k]).value, q[k]).Some?
            && WalkTo(s.mem, r, q[..k + 1]) == Next(s.mem, WalkTo(s.mem, r, q[..k]).value, q[k])
  {
    var q := s.place[f];
    assert q[..k] + [q[k]] == q[..k + 1];
    WalkPrefix(s.mem, r, q[..k + 1], q);
    WalkStep(s.mem, r, q[..k], q[k]);
  }

  lemma {:induction false} FreesGone(s: Spaces, r: FrameNo, f: FrameNo, k: nat, d: nat)
    requires Shape(s) && r in s.roots && Frees(s, r, f) && k < |s.place[f]| && Height(d, k)
    ensures WalkTo(s.mem, r, s.place[f][..k]).Some?
    ensures f in GoneBelow(s.mem, WalkTo(s.mem, r, s.place[f][..k]).value, d, 512)
    decreases d
  {
    var q := s.place[f];
    OnTheWay(s, r, f, k);
    var t := WalkTo(s.mem, r, q[..k]).value;
    if k == |q| - 1 {
      assert q[..k] == Front(q) && q[..k + 1] == q;
    } else {
      FreesGone(s, r, f, k + 1, d - 1);
    }
    assert f in Gone(s.mem, t, d, q[k]);
    GoneUp(s.mem, t, d, 512, q[k]);
  }

  lemma {:induction false} SweepsVisited(s: Spaces, r: FrameNo, f: FrameNo, k: nat, d: nat)
    requires Shape(s) && r in s.roots && Sweeps(s, r, f) && k < |s.place[f]| && Height(d, k)
    ensures WalkTo(s.mem, r, s.place[f][..k]).Some?
    ensures f in VisitedBelow(s.mem, WalkTo(s.mem, r, s.place[f][..k]).value, d, 512)
    decreases d
  {
    var q := s.place[f];
    OnTheWay(s, r, f, k);
    var t := WalkTo(s.mem, r, q[..k]).value;
    if k == |q| - 1 {
      assert q[..k + 1] == q;
    } else {
      SweepsVisited(s, r, f, k + 1, d - 1);
    }
    assert f in Visited(s.mem, t, d, q[k]);
    GoneUp(s.mem, t, d, 512, q[k]);
  }

  /** The sweep gives back exactly what the paths say. */
  lemma GoneIs(s: Spaces, r: FrameNo, d: nat, f: FrameNo)
    requires Shape(s) && r in s.roots && Height(d, 0)
    ensures f in GoneBelow(s.mem, r, d, 512) <==> Frees(s, r, f)
  {
    assert Reaches(s, r, r);
    if f in GoneBelow(s.mem, r, d, 512) {
      GoneBelowFrees(s, r, r, d, 512, f);
    } else if Frees(s, r, f) {
      assert s.place[f][..0] == [];
      FreesGone(s, r, f, 0, d);
    }
  }

  /** And visits exactly those tables. */
  lemma VisitedIs(s: Spaces, r: FrameNo, d: nat, f: FrameNo)
    requires Shape(s) && r in s.roots && Height(d, 0)
    ensures f == r || f in VisitedBelow(s.mem, r, d, 512) <==> Sweeps(s, r, f)
  {
    assert Reaches(s, r, r);
    if f in VisitedBelow(s.mem, r, d, 512) {
      VisitedBelowSweeps(s, r, r, d, 512, f);
    } else if Sweeps(s, r, f) && f != r {
      assert s.place[f][..0] == [];
      SweepsVisited(s, r, f, 0, d);
    }
  }

  // ---------------------------------------------------------------- the code among all address spaces

  /** After the call memory and bitmap are those of the specification. */
  lemma TeardownPages(s: Spaces, r: FrameNo, k: Tops, d: nat, m: Mem)
    requires Shape(s) && r in s.roots && Height(d, 0) && (forall f :: f in s.place ==> !IsTable(s.mem, k, f))
    requires Written(s.mem, k, VisitedBelow(s.mem, r, d, 512), r, TornPage(At(s.mem, r), 512), m)
    ensures forall f :: f in s.place ==> At(m, f) == At(TornMem(s, r), f)
  {
    forall f | f in s.place
      ensures At(m, f) == At(TornMem(s, r), f)
    {
      VisitedIs(s, r, d, f);
    }
  }

  lemma TeardownSpaces(s: Spaces, r: FrameNo, map0: seq<Bits>, k: Tops, d: nat, m: Mem, map_: seq<Bits>)
    requires Shape(s) && r in s.roots && Height(d, 0) && (forall f :: f in s.place ==> !IsTable(s.mem, k, f))
    requires |map0| == MAP_WORDS && Torn(s.mem, map0, k, r, d, 512, m, map_)
    ensures |map_| == MAP_WORDS
    ensures forall f :: f in s.place ==> At(m, f) == At(TornMem(s, r), f)
    ensures forall g: FrameNo :: InUse(map_, g) <==> InUse(map0, g) && !Frees(s, r, g)
  {
    TeardownPages(s, r, k, d, m);
    forall g: FrameNo
      ensures InUse(map_, g) <==> InUse(map0, g) && !Frees(s, r, g)
    {
      GoneIs(s, r, d, g);
    }
  }

  lemma {:induction false} SameWalk(s: Spaces, r: FrameNo, m: Mem, r2: FrameNo, q: Path)
    requires Shape(s) && Counted(s) && r in s.roots && r2 in s.roots && r2 != r && |q| <= 4
    requires forall f :: f in s.place ==> At(m, f) == At(TornMem(s, r), f)
    ensures WalkTo(m, r2, q) == WalkTo(TornMem(s, r), r2, q)
  {
    if q != [] {
      SameWalk(s, r, m, r2, Front(q));
      TornWalk(s, r, r2, Front(q));
      if WalkTo(s.mem, r2, Front(q)).Some? { WalkPlace(s.mem, s.place, r2, Front(q)); }
    }
  }

  /** Another process walks to a frame that the bitmap says is free. */
  ghost predicate WalksToFree(s: Spaces, r: FrameNo, m: Mem, map_: seq<Bits>)
    requires |map_| == MAP_WORDS
  {
    exists r2, q: Path :: r2 in s.roots && r2 != r && |q| <= 4 && EndsFree(m, map_, r2, q)
  }

  ghost predicate EndsFree(m: Mem, map_: seq<Bits>, r2: FrameNo, q: Path)
    requires |map_| == MAP_WORDS
  {
    match WalkTo(m, r2, q)
    case None => false
    case Some(f) => !InUse(map_, f)
  }

  lemma FreeIsFreed(s: Spaces, r: FrameNo, map0: seq<Bits>, m: Mem, map_: seq<Bits>, r2: FrameNo, q: Path)
    requires Shape(s) && Counted(s) && r in s.roots && r2 in s.roots && r2 != r && |q| <= 4
    requires |map0| == |map_| == MAP_WORDS
    requires forall f :: f in s.place ==> At(m, f) == At(TornMem(s, r), f) && InUse(map0, f)
    requires forall g: FrameNo :: InUse(map_, g) <==> InUse(map0, g) && !Frees(s, r, g)
    ensures EndsFree(m, map_, r2, q) <==> EndsFreed(s, r, r2, q)
  {
    SameWalk(s, r, m, r2, q);
    TornWalk(s, r, r2, q);
    if WalkTo(s.mem, r2, q).Some? { WalkPlace(s.mem, s.place, r2, q); }
  }

  /** The call leaves somebody else walking through free frames exactly if a top-level entry of the torn process that
      counts nobody leads to a table somebody else reaches. */
  lemma TeardownDanglesIff(s: Spaces, r: FrameNo, map0: seq<Bits>, k: Tops, d: nat, m: Mem,
                            map_: seq<Bits>)
    requires Shape(s) && Counted(s) && ExitRuns.Kept(s) && r in s.roots
    requires |map0| == MAP_WORDS && Height(d, 0) && Torn(s.mem, map0, k, r, d, 512, m, map_)
    requires forall f :: f in s.place ==> !IsTable(s.mem, k, f) && InUse(map0, f)
    ensures |map_| == MAP_WORDS && (WalksToFree(s, r, m, map_) <==> !ExitRuns.OwnTops(s, r))
  {
    TeardownSpaces(s, r, map0, k, d, m, map_);
    ExitRuns.ExitIff(s, r);
    forall r2, q: Path | r2 in s.roots && r2 != r && |q| <= 4
      ensures EndsFree(m, map_, r2, q) <==> EndsFreed(s, r, r2, q)
    {
      FreeIsFreed(s, r, map0, m, map_, r2, q);
    }
  }

  lemma ReturnedIs(s: Spaces, r: FrameNo, stack: FrameNo, task: FrameNo, d: nat, g: FrameNo)
    requires Shape(s) && r in s.roots && Height(d, 0)
    ensures g in GoneBelow(s.mem, r, d, 512) + {r} + {stack} + {task} <==> Returned(s, r, {stack, task}, g)
  {
    GoneIs(s, r, d, g);
  }

  lemma ExitBitmap(s: Spaces, r: FrameNo, stack: FrameNo, task: FrameNo, map0: seq<Bits>, k: Tops, d: nat, m: Mem,
                   map_: seq<Bits>)
    requires Shape(s) && r in s.roots && Height(d, 0) && |map0| == MAP_WORDS
    requires Released(s.mem, map0, k, GoneBelow(s.mem, r, d, 512) + {r} + {stack} + {task}, m, map_)
    ensures forall g: FrameNo :: InUse(map_, g) <==> InUse(map0, g) && !Returned(s, r, {stack, task}, g)
  {
    forall g: FrameNo
      ensures InUse(map_, g) <==> InUse(map0, g) && !Returned(s, r, {stack, task}, g)
    {
      ReturnedIs(s, r, stack, task, d, g);
    }
  }

  /** And an exit leaves memory and bitmap as in the specification. */
  lemma ExitSpaces(s: Spaces, r: FrameNo, stack: FrameNo, task: FrameNo, map0: seq<Bits>, k: Tops, d: nat, m: Mem,
                   map_: seq<Bits>)
    requires Shape(s) && r in s.roots && Height(d, 0) && (forall f :: f in s.place ==> !IsTable(s.mem, k, f))
    requires |map0| == MAP_WORDS
    requires Effect(s.mem, map0, k, GoneBelow(s.mem, r, d, 512) + {r} + {stack} + {task}, VisitedBelow(s.mem, r, d, 512), r,
                    TornPage(At(s.mem, r), 512), m, map_)
    ensures |map_| == MAP_WORDS
    ensures forall g: FrameNo :: InUse(map_, g) <==> InUse(map0, g) && !Returned(s, r, {stack, task}, g)
    ensures forall f :: f in s.place && !Returned(s, r, {stack, task}, f) ==> At(m, f) == At(LeftMem(s, r, {stack, task}), f)
  {
    TeardownPages(s, r, k, d, m);
    ExitBitmap(s, r, stack, task, map0, k, d, m, map_);
  }

  /** So after a fork of a process that no counter counts, the teardown of the child puts the parent's level-1 table back
      into the bitmap, and the parent still walks through it to every page it had. */
  lemma ForkedTeardown(s: Spaces, p: FrameNo, va: Path, child: FrameNo, s': Spaces, map0: seq<Bits>, k: Tops, d: nat,
                       m: Mem, map_: seq<Bits>)
    requires Shape(s) && s.roots == {p} && |va| == 4 && WalkTo(s.mem, p, va).Some?
    requires forall f, i: Idx :: f in s.place && |s.place[f]| <= 3 && At(s.mem, f)[i].valid ==> At(s.mem, f)[i].refs == 0
    requires s.avail != [] && child == s.avail[0] && Forks(s, p, s')
    requires |map0| == MAP_WORDS && Height(d, 0) && Torn(s'.mem, map0, k, child, d, 512, m, map_)
    requires forall f :: f in s'.place ==> !IsTable(s'.mem, k, f) && InUse(map0, f)
    ensures |map_| == MAP_WORDS && !InUse(map_, At(s.mem, p)[va[0]].frame)
    ensures WalkTo(m, p, [va[0]]) == Some(At(s.mem, p)[va[0]].frame) && WalkTo(m, p, va) == WalkTo(s.mem, p, va)
  {
    ExitAfterFork.ForkExitDangles(s, p, va, child, s');
    TeardownSpaces(s', child, map0, k, d, m, map_);
    SameWalk(s', child, m, p, [va[0]]);
    SameWalk(s', child, m, p, va);
  }
}
