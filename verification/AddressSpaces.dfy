/** The kernel code that works on user page tables, as it changes memory step by step
    (mem.c, mmu.c, task.c).  Each method is proved against a specification function or
    relation of modules Cow and UserMap, where the properties of whole runs are proved. */
module AddressSpaces {
  import opened Options
  import opened Words
  import opened Paging
  import opened Cow
  import opened UserMap

  // ---------------------------------------------------------------- what a sweep marks

  /** The index through which table `t` leads to word `i` of table `f`, somewhere below it. */
  function Via(s: Spaces, t: FrameNo, f: FrameNo, i: Idx): (j: Idx)
    requires t in s.place && f in s.place && |s.place[t]| <= |s.place[f]|
  {
    (s.place[f] + [i])[|s.place[t]|]
  }

  /** Word `i` of table `f` is marked when the subtree of `t` is swept. */
  ghost predicate Swept(s: Spaces, t: FrameNo, f: FrameNo, i: Idx)
    requires Shape(s) && t in s.place && 1 <= |s.place[t]| <= 3
    decreases 4 - |s.place[t]|
  {
    && f in s.place && s.place[t] <= s.place[f] && |s.place[f]| <= 3
    && if |s.place[f]| == |s.place[t]| then f == t && (|s.place[t]| == 1 || At(s.mem, t)[i].valid)
       else var w := At(s.mem, t)[Via(s, t, f, i)];
            w.valid && (assert Linked(s.place, s.place[t], Via(s, t, f, i), w); Swept(s, w.frame, f, i))
  }

  /** `m` is `before` with the words swept below `t` marked, as far as index `k` of `t`. */
  ghost predicate SweptUpTo(s: Spaces, before: Mem, m: Mem, t: FrameNo, k: nat)
    requires Shape(s) && t in s.place && 1 <= |s.place[t]| <= 3
  {
    && m.Keys == before.Keys
    && forall f, i: Idx :: f in m ==>
         At(m, f)[i] == if Swept(s, t, f, i) && Via(s, t, f, i) < k then Copied(At(before, f)[i]) else At(before, f)[i]
  }

  ghost predicate Sweeps(s: Spaces, t: FrameNo, m: Mem) {
    && Shape(s) && m.Keys == s.mem.Keys && SameLinks(s, m)
    && t in s.place && 1 <= |s.place[t]| <= 3
  }

  lemma SweepWord(s: Spaces, t: FrameNo, k: Idx, f: FrameNo, i: Idx)
    requires Shape(s) && t in s.place && 1 <= |s.place[t]| <= 3
    requires Swept(s, t, f, i) && Via(s, t, f, i) == k && f != t
    ensures var c := At(s.mem, t)[k].frame;
            && |s.place[t]| < 3 && At(s.mem, t)[k].valid
            && c in s.place && s.place[c] == s.place[t] + [k] && Swept(s, c, f, i)
  {
    assert Linked(s.place, s.place[t], k, At(s.mem, t)[k]);
  }

  lemma SweepChildWord(s: Spaces, t: FrameNo, k: Idx, f: FrameNo, i: Idx)
    requires Shape(s) && t in s.place && 1 <= |s.place[t]| <= 2 && At(s.mem, t)[k].valid
    requires At(s.mem, t)[k].frame in s.place && s.place[At(s.mem, t)[k].frame] == s.place[t] + [k]
    requires Swept(s, At(s.mem, t)[k].frame, f, i)
    ensures f != t && Swept(s, t, f, i) && Via(s, t, f, i) == k
  {
    assert s.place[t] <= s.place[At(s.mem, t)[k].frame] <= s.place[f];
    assert s.place[f][|s.place[t]|] == k;
  }

  /** Marking entry `k` of `t`, then sweeping the table it leads to, is one more step of sweeping `t`. */
  lemma SweepEntry(s: Spaces, before: Mem, m0: Mem, m1: Mem, m2: Mem, t: FrameNo, k: Idx)
    requires Sweeps(s, t, before) && SweptUpTo(s, before, m0, t, k)
    requires m1 == if |s.place[t]| == 1 || At(s.mem, t)[k].valid then Put(m0, t, k, Copied(At(m0, t)[k])) else m0
    requires |s.place[t]| < 3 && At(s.mem, t)[k].valid ==>
      var c := At(s.mem, t)[k].frame;
      c in s.place && s.place[c] == s.place[t] + [k] && SweptUpTo(s, m1, m2, c, 512)
    requires !(|s.place[t]| < 3 && At(s.mem, t)[k].valid) ==> m2 == m1
    ensures SweptUpTo(s, before, m2, t, k + 1)
  {
    forall f, i: Idx | f in m2
      ensures At(m2, f)[i] ==
              if Swept(s, t, f, i) && Via(s, t, f, i) < k + 1 then Copied(At(before, f)[i]) else At(before, f)[i]
    {
      if f == t {
        if |s.place[t]| < 3 && At(s.mem, t)[k].valid && Swept(s, At(s.mem, t)[k].frame, f, i) {
          SweepChildWord(s, t, k, f, i);
        }
      } else if |s.place[t]| < 3 && At(s.mem, t)[k].valid && Swept(s, At(s.mem, t)[k].frame, f, i) {
        SweepChildWord(s, t, k, f, i);
      } else if Swept(s, t, f, i) && Via(s, t, f, i) == k {
        SweepWord(s, t, k, f, i);
      }
    }
  }

  /** After marking an entry the table behind it, if there is one, is ready to be swept. */
  lemma SweepInto(s: Spaces, m0: Mem, t: FrameNo, k: Idx)
    requires Sweeps(s, t, m0) && |s.place[t]| < 3
    ensures var m1 := Put(m0, t, k, Copied(At(m0, t)[k]));
            var c := At(m1, t)[k].frame;
            && At(m1, t)[k].page == At(s.mem, t)[k].valid
            && (At(s.mem, t)[k].valid ==>
                  c == At(s.mem, t)[k].frame && Sweeps(s, c, m1) && s.place[c] == s.place[t] + [k])
  {
    assert Linked(s.place, s.place[t], k, At(s.mem, t)[k]);
  }

  lemma SweptLinks(s: Spaces, before: Mem, m: Mem, t: FrameNo, k: nat)
    requires Sweeps(s, t, before) && SweptUpTo(s, before, m, t, k)
    ensures Sweeps(s, t, m)
  {
  }

  // ---------------------------------------------------------------- a sweep of the whole tree

  /** Sweeping a table that `root` reaches marks what Cow.Marks says, below that table. */
  lemma {:induction false} SweptIsMarks(s: Spaces, root: FrameNo, t: FrameNo, f: FrameNo, i: Idx)
    requires Shape(s) && root in s.roots && t in s.place && 1 <= |s.place[t]| <= 3
    requires WalkTo(s.mem, root, s.place[t]) == Some(t)
    ensures Swept(s, t, f, i) <==> Marks(s, root, f, i) && s.place[t] <= s.place[f]
    decreases 4 - |s.place[t]|
  {
    if f in s.place && s.place[t] <= s.place[f] && |s.place[t]| < |s.place[f]| <= 3 {
      var j := Via(s, t, f, i);
      var w := At(s.mem, t)[j];
      WalkStep(s.mem, root, s.place[t], j);
      assert s.place[t] + [j] <= s.place[f];
      if w.valid {
        assert Linked(s.place, s.place[t], j, w);
        SweptIsMarks(s, root, w.frame, f, i);
      } else if WalkTo(s.mem, root, s.place[f]).Some? {
        WalkPrefix(s.mem, root, s.place[t] + [j], s.place[f]);
      }
    } else if f in s.place && s.place[t] <= s.place[f] && |s.place[f]| == |s.place[t]| {
      assert s.place[f] == s.place[t];
    }
  }

  ghost predicate MarkedUpTo(s: Spaces, root: FrameNo, m: Mem, k: nat)
    requires Shape(s) && root in s.roots
  {
    && m.Keys == s.mem.Keys
    && forall f, i: Idx :: f in m ==>
         At(m, f)[i] == if Marks(s, root, f, i) && Via(s, root, f, i) < k then Copied(At(s.mem, f)[i]) else At(s.mem, f)[i]
  }

  lemma MarkedLinks(s: Spaces, root: FrameNo, m: Mem, k: nat)
    requires Shape(s) && root in s.roots && MarkedUpTo(s, root, m, k)
    ensures SameLinks(s, m) && m.Keys == s.mem.Keys
  {
  }

  /** Sweeping the level-1 table behind entry `k` of the root is one more step of the soft copy. */
  lemma MarkEntry(s: Spaces, root: FrameNo, m0: Mem, m1: Mem, k: Idx)
    requires Shape(s) && root in s.roots && MarkedUpTo(s, root, m0, k)
    requires if At(s.mem, root)[k].valid then
               var c := At(s.mem, root)[k].frame;
               c in s.place && s.place[c] == [k] && SweptUpTo(s, m0, m1, c, 512)
             else m1 == m0
    ensures MarkedUpTo(s, root, m1, k + 1)
  {
    var c := At(s.mem, root)[k].frame;
    WalkStep(s.mem, root, [], k);
    assert [] + [k] == [k];
    forall f, i: Idx | f in m1
      ensures At(m1, f)[i] ==
              if Marks(s, root, f, i) && Via(s, root, f, i) < k + 1 then Copied(At(s.mem, f)[i]) else At(s.mem, f)[i]
    {
      if At(s.mem, root)[k].valid {
        SweptIsMarks(s, root, c, f, i);
        if Marks(s, root, f, i) {
          assert [k] <= s.place[f] <==> Via(s, root, f, i) == k;
        }
      } else if Marks(s, root, f, i) && Via(s, root, f, i) == k {
        WalkPrefix(s.mem, root, [k], s.place[f]);
      }
    }
  }

  // ---------------------------------------------------------------- a page fresh from the allocator

  function Allocated(s: Spaces, contents: Page): Spaces
    requires s.avail != []
  {
    s.(mem := s.mem[s.avail[0] := contents], avail := s.avail[1..])
  }

  lemma AllocatedShape(s: Spaces, contents: Page)
    requires TreeShape(s) && s.avail != []
    ensures TreeShape(Allocated(s, contents))
    ensures Leaves(s.mem, s.place) ==> Leaves(Allocated(s, contents).mem, s.place)
    ensures forall f :: f in s.place ==> At(Allocated(s, contents).mem, f) == At(s.mem, f)
  {
    var s' := Allocated(s, contents);
    assert forall f :: f in s.place ==> At(s'.mem, f) == At(s.mem, f);
  }

  lemma AllocatedMarks(s: Spaces, contents: Page, root: FrameNo, f: FrameNo, i: Idx)
    requires Shape(s) && s.avail != [] && root in s.roots
    ensures Marks(Allocated(s, contents), root, f, i) == Marks(s, root, f, i)
  {
    AllocatedShape(s, contents);
    if f in s.place {
      SameLinksWalk(s, Allocated(s, contents).mem, root, s.place[f]);
    }
  }

  /** The state in which the struct and the kernel stack of a new task have their pages, and the page for its top-level
      table is the next one. */
  function ForkReady(s: Spaces, struct: Page, stack: Page): Spaces
    requires |s.avail| >= 3
  {
    s.(mem := s.mem[s.avail[0] := struct][s.avail[2] := stack], avail := [s.avail[1]] + s.avail[3..])
  }

  lemma ForkReadyShape(s: Spaces, struct: Page, stack: Page)
    requires Shape(s) && |s.avail| >= 3
    ensures Shape(ForkReady(s, struct, stack))
  {
    var r := ForkReady(s, struct, stack);
    assert forall f :: f in s.place ==> At(r.mem, f) == At(s.mem, f);
    assert forall i :: 0 <= i < |r.avail| ==> r.avail[i] == if i == 0 then s.avail[1] else s.avail[i + 2];
  }

  lemma ReadyIs(s: Spaces, struct: Page, contents: Page, stack: Page)
    requires TreeShape(s) && |s.avail| >= 3
    ensures Allocated(ForkReady(s, struct, stack), contents)
         == s.(mem := s.mem[s.avail[0] := struct][s.avail[1] := contents][s.avail[2] := stack], avail := s.avail[3..])
  {
    var r := Allocated(ForkReady(s, struct, stack), contents);
    assert r.avail == s.avail[3..];
    assert r.mem == s.mem[s.avail[0] := struct][s.avail[1] := contents][s.avail[2] := stack];
  }

  /** All frames that were left are taken, and nothing else has changed. */
  ghost predicate Lost(s: Spaces, s': Spaces) {
    && s'.avail == [] && s'.roots == s.roots && s'.place == s.place
    && s'.mem.Keys == s.mem.Keys + (set i | 0 <= i < |s.avail| :: s.avail[i])
    && forall f :: f in s.mem ==> s'.mem[f] == s.mem[f]
  }

  lemma LostAll(s: Spaces, s': Spaces, a: Page, b: Page)
    requires TreeShape(s) && s'.avail == [] && s'.roots == s.roots && s'.place == s.place
    requires (|s.avail| == 1 && s'.mem == s.mem[s.avail[0] := a])
          || (|s.avail| == 2 && s'.mem == s.mem[s.avail[0] := a][s.avail[1] := b])
    ensures Lost(s, s')
  {
    forall f
      ensures f in s'.mem <==> f in s.mem || exists i :: 0 <= i < |s.avail| && s.avail[i] == f
    {
    }
  }

  /** A soft copy after the child's page was allocated is a soft copy with that page set aside. */
  lemma ForkAfterAlloc(s: Spaces, contents: Page, parent: FrameNo, m: Mem)
    requires Shape(s) && s.avail != [] && parent in s.roots
    requires SoftCopied(Allocated(s, contents), parent, m)
    ensures SoftCopied(s, parent, m - {s.avail[0]})
    ensures Child(s, parent, m - {s.avail[0]}).mem == m[s.avail[0] := At(m, parent)]
  {
    forall f, i: Idx | f in s.mem
      ensures At(m - {s.avail[0]}, f)[i] == if Marks(s, parent, f, i) then Copied(At(s.mem, f)[i]) else At(s.mem, f)[i]
    {
      AllocatedMarks(s, contents, parent, f, i);
    }
  }

  /** Mapping below `t` in `s` comes down to mapping below `t1` in `s1`, with the frames `taken` for tables. */
  ghost predicate Reached(s: Spaces, t: FrameNo, rest: Path, leaf: Word, s1: Spaces, t1: FrameNo, rest1: Path,
                          taken: seq<FrameNo>)
  {
    && rest != [] && t in s.place && rest1 != [] && t1 in s1.place && TreeShape(s1)
    && MapBelow(s, t, rest, leaf) == MapBelow(s1, t1, rest1, leaf)
    && s.avail == taken + s1.avail && s1.mem.Keys == s.mem.Keys + (set f | f in taken)
    && if taken == [] then s1 == s else !MapBelow(s1, t1, rest1, leaf).Exists?
  }

  lemma ReachedTrans(s: Spaces, t: FrameNo, rest: Path, leaf: Word,
                     s1: Spaces, t1: FrameNo, rest1: Path, taken1: seq<FrameNo>,
                     s2: Spaces, t2: FrameNo, rest2: Path, taken2: seq<FrameNo>)
    requires Reached(s, t, rest, leaf, s1, t1, rest1, taken1) && Reached(s1, t1, rest1, leaf, s2, t2, rest2, taken2)
    ensures Reached(s, t, rest, leaf, s2, t2, rest2, taken1 + taken2)
  {
    assert taken1 + taken2 + s2.avail == taken1 + (taken2 + s2.avail);
    assert (set f | f in taken1 + taken2) == (set f | f in taken1) + (set f | f in taken2);
  }

  lemma TakenFrames(s: Spaces, taken: seq<FrameNo>, left: seq<FrameNo>)
    requires TreeShape(s) && s.avail == taken + left
    ensures forall i, j :: 0 <= i < j < |taken| ==> taken[i] != taken[j]
    ensures (set f | f in taken) !! s.mem.Keys
    ensures multiset(left) + multiset(taken) == multiset(s.avail)
    ensures forall m: Mem :: m.Keys == s.mem.Keys + (set f | f in taken) ==>
      m - (set f | f in taken) == m - (m.Keys - s.mem.Keys)
  {
    forall i, j | 0 <= i < j < |taken|
      ensures taken[i] != taken[j]
    {
      assert s.avail[i] == taken[i] && s.avail[j] == taken[j];
    }
    forall f | f in taken
      ensures f in s.avail
    {
    }
  }

  lemma FourLevels(s: Spaces, root: FrameNo, va: Path)
    requires TreeShape(s) && root in s.roots && |va| == 4
    ensures var w0 := At(s.mem, root)[va[0]];
            var w1 := At(s.mem, w0.frame)[va[1]];
            var w2 := At(s.mem, w1.frame)[va[2]];
            && WalkTo(s.mem, root, Front(va)) ==
               (if w0.valid && w1.valid && w2.valid then Some(w2.frame) else None)
            && (w0.valid ==> (w1.valid <==> w1.page))
            && (w0.valid && w1.valid ==> (w2.valid <==> w2.page))
    ensures WalkTo(s.mem, root, va) ==
            match WalkTo(s.mem, root, Front(va)) { case None => None case Some(t) => Next(s.mem, t, va[3]) }
  {
    var w0 := At(s.mem, root)[va[0]];
    var w1 := At(s.mem, w0.frame)[va[1]];
    WalkStep(s.mem, root, [], va[0]);
    WalkStep(s.mem, root, [va[0]], va[1]);
    WalkStep(s.mem, root, [va[0], va[1]], va[2]);
    assert Front(va) == [va[0], va[1]] + [va[2]];
    assert [va[0], va[1]] == [va[0]] + [va[1]] && [va[0]] == [] + [va[0]];
    assert Linked(s.place, s.place[root], va[0], w0);
    if w0.valid {
      assert Linked(s.place, s.place[w0.frame], va[1], w1);
    }
  }

  lemma PutTwice(m: Mem, f: FrameNo, i: Idx, v: Word, w: Word)
    ensures Put(Put(m, f, i, v), f, i, w) == Put(m, f, i, w)
  {
    assert At(m, f)[i := v][i := w] == At(m, f)[i := w];
  }

  ghost predicate Unused(m: Mem, root: FrameNo, page: nat) {
    WalkTo(m, root, PathOf(page)).None?
  }

  /** The `count` pages from page number `page` on are unmapped. */
  ghost predicate Vacant(m: Mem, root: FrameNo, page: nat, count: nat) {
    forall p: nat :: page <= p < page + count ==> Unused(m, root, p)
  }

  /** No vacant run begins at `start` or up to `advance` pages after it. */
  ghost predicate NoVacantBefore(m: Mem, root: FrameNo, start: nat, count: nat, advance: nat) {
    forall p: nat :: start <= p < start + advance ==> !Vacant(m, root, p, count)
  }

  /** The first vacant run from `start` on begins `advance` pages after it. */
  ghost predicate FirstVacant(m: Mem, root: FrameNo, start: nat, count: nat, advance: nat) {
    Vacant(m, root, start + advance, count) && NoVacantBefore(m, root, start, count, advance)
  }

  /** A taken page rules out every start from which the run would meet it. */
  lemma NoVacantRun(m: Mem, root: FrameNo, page: nat, count: nat, k: nat)
    requires k < count && !Unused(m, root, page + k)
    ensures forall p: nat :: page <= p <= page + k ==> !Vacant(m, root, p, count)
  {}

  lemma AddressAdd(n: nat, k: nat)
    ensures (n % ADDRESSES + k) % ADDRESSES == (n + k) % ADDRESSES
  {
    var q, r := n / ADDRESSES, (n % ADDRESSES + k) / ADDRESSES;
    assert n + k == (q + r) * ADDRESSES + (n % ADDRESSES + k) % ADDRESSES;
  }

  lemma AddressPath(n: nat)
    ensures PathOf(n % ADDRESSES) == PathOf(n)
  {
    ModShifted(n % ADDRESSES, n, n / ADDRESSES * 0x1_0000);
    PathOfSame(n, n % ADDRESSES);
  }

  /** Page `va` of the table `root` is `frame`; users can read it, write it only with MEM_RW and run it only with
      MEM_EX, and the kernel cannot run it. */
  ghost predicate MappedAs(m: Mem, root: FrameNo, va: Path, frame: FrameNo, perm: Perm, attr: Attr)
    requires va != []
  {
    match LeafAt(m, root, va)
    case None => false
    case Some(w) =>
      && w.frame == frame && w.refs == 0
      && UserReads(w) && (UserWrites(w) <==> perm == MemRw) && (UserRuns(w) <==> perm == MemEx)
      && !KernelRuns(w) && (NormalMemory(w) <==> attr == MemNorm)
  }

  /** What a successful `mem_user_map_page` allows. */
  lemma MappedRights(s: Spaces, root: FrameNo, va: Path, frame: FrameNo, perm: Perm, attr: Attr)
    requires TreeShape(s) && root in s.roots && |va| == 4 && perm != NoPerm
    ensures var out := MapBelow(s, root, va, LeafWord(frame, perm, attr));
            out.Mapped? ==> MappedAs(out.s.mem, root, va, frame, perm, attr)
  {
    LeafRights(frame, perm, attr);
    MapPageFlat(s, root, va, LeafWord(frame, perm, attr), root, va);
  }

  class UserTables {
    var mem: Mem
    var avail: seq<FrameNo>
    ghost var roots: set<FrameNo>
    ghost var place: Places

    ghost function S(): Spaces
      reads this
    {
      Spaces(mem, roots, place, avail)
    }

    method SweepLevel3(ghost s: Spaces, t: FrameNo)
      requires Sweeps(s, t, mem) && |s.place[t]| == 3
      modifies this`mem
      ensures SweptUpTo(s, old(mem), mem, t, 512)
    {
      for k := 0 to 512
        invariant SweptUpTo(s, old(mem), mem, t, k)
      {
        ghost var m0 := mem;
        SweptLinks(s, old(mem), m0, t, k);
        if At(mem, t)[k].valid {
          mem := Put(mem, t, k, Copied(At(mem, t)[k]));
        }
        SweepEntry(s, old(mem), m0, mem, mem, t, k);
      }
    }

    method SweepLevel2(ghost s: Spaces, t: FrameNo)
      requires Sweeps(s, t, mem) && |s.place[t]| == 2
      modifies this`mem
      ensures SweptUpTo(s, old(mem), mem, t, 512)
    {
      for k := 0 to 512
        invariant SweptUpTo(s, old(mem), mem, t, k)
      {
        ghost var m0, m1 := mem, mem;
        SweptLinks(s, old(mem), m0, t, k);
        if At(mem, t)[k].valid {
          mem := Put(mem, t, k, Copied(At(mem, t)[k]));
          m1 := mem;
          SweepInto(s, m0, t, k);
          if At(mem, t)[k].page {
            SweepLevel3(s, At(mem, t)[k].frame);
          }
        }
        SweepEntry(s, old(mem), m0, m1, mem, t, k);
      }
    }

    method SweepLevel1(ghost s: Spaces, t: FrameNo, root: FrameNo, i0: Idx)
      requires Sweeps(s, t, mem) && |s.place[t]| == 1
      requires root in s.roots && At(s.mem, root)[i0].valid
      modifies this`mem
      ensures SweptUpTo(s, old(mem), mem, t, 512)
    {
      for k := 0 to 512
        invariant SweptUpTo(s, old(mem), mem, t, k)
      {
        ghost var m0, m1 := mem, mem;
        SweptLinks(s, old(mem), m0, t, k);
        // The source tests the level-0 entry a second time here, not the level-1 entry.
        if At(mem, root)[i0].valid {
          mem := Put(mem, t, k, Copied(At(mem, t)[k]));
          m1 := mem;
          SweepInto(s, m0, t, k);
          if At(mem, t)[k].page {
            SweepLevel2(s, At(mem, t)[k].frame);
          }
        }
        SweepEntry(s, old(mem), m0, m1, mem, t, k);
      }
    }

    /** `mem_table_soft_copy` */
    method SoftCopy(root: FrameNo)
      requires Shape(S()) && root in roots
      modifies this`mem
      ensures SoftCopied(old(S()), root, mem)
    {
      ghost var s := S();
      for k := 0 to 512
        invariant MarkedUpTo(s, root, mem, k)
      {
        ghost var m0 := mem;
        MarkedLinks(s, root, m0, k);
        if At(mem, root)[k].valid {
          assert Linked(s.place, s.place[root], k, At(s.mem, root)[k]);
          SweepLevel1(s, At(mem, root)[k].frame, root, k);
        }
        MarkEntry(s, root, m0, mem, k);
      }
    }

    /** The page allocator, as the rest of this module sees it; module KernelPages has the real one. */
    method AllocPage() returns (r: Option<FrameNo>)
      modifies this`mem, this`avail
      ensures r.None? ==> old(avail) == [] && S() == old(S())
      ensures r.Some? ==> old(avail) != [] && r.value == old(avail)[0] && r.value in mem
      ensures r.Some? ==> S() == Allocated(old(S()), mem[r.value])
    {
      if avail == [] {
        return None;
      }
      var contents: Page := *;
      r := Some(avail[0]);
      mem, avail := mem[avail[0] := contents], avail[1..];
    }

    /** The three pages of `task_fork`: for the struct, for the child's top-level table and for its kernel stack, which is
        copied.  When one of them cannot be had, the others are not given back. */
    method ForkPages(kernelStack: Page) returns (table: Option<FrameNo>, ghost struct: Page)
      requires TreeShape(S())
      modifies this`mem, this`avail
      ensures table.Some? <==> |old(avail)| >= 3
      ensures table.None? ==> Lost(old(S()), S())
      ensures table.Some? ==> table.value == old(avail)[1] && table.value in mem
      ensures table.Some? ==> S() == Allocated(ForkReady(old(S()), struct, kernelStack), mem[table.value])
    {
      ghost var s := S();
      struct := Blank(512);
      var task := AllocPage();
      if task.None? {
        return None, struct;
      }
      struct := mem[task.value];
      table := AllocPage();
      if table.None? {
        LostAll(s, S(), struct, struct);
        return None, struct;
      }
      ghost var contents := mem[table.value];
      var stack := AllocPage();
      if stack.None? {
        LostAll(s, S(), struct, contents);
        return None, struct;
      }
      mem := mem[stack.value := kernelStack];
      ReadyIs(s, struct, contents, kernelStack);
    }

    /** The fork of the page tables: soft copy, and a copy of the top-level table. */
    method ShareTables(parent: FrameNo, table: FrameNo, ghost s: Spaces)
      requires Shape(s) && s.avail != [] && table == s.avail[0] && table in mem && parent in s.roots
      requires S() == Allocated(s, mem[table])
      modifies this
      ensures Forks(s, parent, S())
    {
      ghost var contents := mem[table];
      AllocatedShape(s, contents);
      SoftCopy(parent);
      ForkAfterAlloc(s, contents, parent, mem);
      mem := mem[table := At(mem, parent)];
      roots, place := roots + {table}, place[table := []];
    }

    /** `task_fork` as far as memory goes. */
    method Fork(parent: FrameNo, kernelStack: Page) returns (child: Option<FrameNo>, ghost struct: Page)
      requires Shape(S()) && parent in roots
      modifies this
      ensures child.Some? <==> |old(avail)| >= 3
      ensures child.None? ==> Lost(old(S()), S())
      ensures child.Some? ==>
        child.value == old(avail)[1] && Forks(ForkReady(old(S()), struct, kernelStack), parent, S())
    {
      ghost var s := S();
      child, struct := ForkPages(kernelStack);
      if child.Some? {
        ForkReadyShape(s, struct, kernelStack);
        ShareTables(parent, child.value, ForkReady(s, struct, kernelStack));
      }
    }

    /** One level of the data-abort handler: if the counter of entry `i` says the table is shared, count
        one owner less there and go on with a copy of the table. */
    method OwnTable(ghost h: Hop, table: FrameNo, parent: FrameNo, pi: Idx, i: Idx) returns (owned: Option<FrameNo>)
      requires h.parent == parent && h.pi == pi && table == Target(S(), h)
      requires Inv(S()) && Site(S(), h)
      modifies this
      ensures var out := Own(old(S()), h, i);
              && S() == out.s && owned.Some? == out.Done?
              && (owned.Some? ==> owned.value == Target(S(), h))
    {
      SitePlaces(S(), h);
      if At(mem, table)[i].refs == 0 {
        return Some(table);
      }
      mem := Put(mem, table, i, Freed(At(mem, table)[i]));
      owned := AllocPage();
      if owned.Some? {
        mem := mem[owned.value := At(mem, table)];
        mem := Put(mem, parent, pi, TableWord(owned.value));
        place := place[owned.value := h.path + [pi]];
      }
    }

    /** The check before it, and what both leave to be done below. */
    method EnterTable(ghost h: Hop, parent: FrameNo, pi: Idx, i: Idx, ghost rest: Path) returns (owned: Option<FrameNo>)
      requires h.parent == parent && h.pi == pi
      requires Inv(S()) && Site(S(), h) && |h.path| <= 2 && rest != [] && rest[0] == i
      modifies this
      ensures var out := Descend(old(S()), h, rest);
              match owned
              case None => S() == out.s && !out.Done?
              case Some(t) => var h' := Hop(h.root, h.path + [pi], t, i);
                Inv(S()) && Site(S(), h') && out == Descend(S(), h', rest[1..])
    {
      var table := At(mem, parent)[pi].frame;
      if !At(mem, table)[i].valid {
        return None;
      }
      ghost var s := S();
      owned := OwnTable(h, table, parent, pi, i);
      if owned.Some? {
        OwnDone(s, h, i);
      }
    }

    /** The end of the handler: the page gets a copy of its own, writable by the user. */
    method CopyPage(ghost h: Hop, table: FrameNo, i: Idx) returns (ok: bool)
      requires h.parent == table && h.pi == i
      requires Inv(S()) && Site(S(), h)
      modifies this
      ensures var out := Descend(old(S()), h, []);
              S() == out.s && ok == out.Done?
    {
      SitePlaces(S(), h);
      var page := AllocPage();
      if page.None? {
        return false;
      }
      var data := At(mem, table)[i].frame;
      mem := mem[page.value := At(mem, data)];
      mem := Put(mem, table, i, Repointed(At(mem, table)[i], page.value));
      place := place[page.value := h.path + [i]];
      return true;
    }

    /** `mmu_handle_data_abort` */
    method HandleDataAbort(root: FrameNo, va: Path) returns (ok: bool)
      requires Inv(S()) && root in roots && |va| == 4
      modifies this
      ensures var out := Abort(old(S()), root, va);
              S() == out.s && ok == out.Done?
    {
      if !At(mem, root)[va[0]].valid {
        return false;
      }
      assert Sharers(S(), [], root) == {root};
      ghost var h := Hop(root, [], root, va[0]);
      var level1 := EnterTable(h, root, va[0], va[1], va[1..]);
      if level1.None? {
        return false;
      }
      assert va[1..][1..] == va[2..] && va[2..][1..] == va[3..] && va[3..][1..] == [];
      h := Hop(root, h.path + [va[0]], level1.value, va[1]);
      var level2 := EnterTable(h, level1.value, va[1], va[2], va[2..]);
      if level2.None? {
        return false;
      }
      h := Hop(root, h.path + [va[1]], level2.value, va[2]);
      var level3 := EnterTable(h, level2.value, va[2], va[3], va[3..]);
      if level3.None? {
        return false;
      }
      h := Hop(root, h.path + [va[2]], level3.value, va[3]);
      ok := CopyPage(h, level3.value, va[3]);
    }

    // -------------------------------------------------------------- mapping

    /** `mem_kernel_free_page`, as the rest of this module sees it: nothing is said about when the
        allocator will hand the frame out again. */
    method FreePage(f: FrameNo)
      requires f in mem
      modifies this`mem, this`avail
      ensures mem == old(mem) - {f}
      ensures multiset(avail) == multiset(old(avail)) + multiset{f}
    {
      var k: nat :| k <= |avail|;
      assert avail == avail[..k] + avail[k..];
      mem, avail := mem - {f}, avail[..k] + [f] + avail[k..];
    }

    method GiveBack(taken: seq<FrameNo>)
      requires forall f :: f in taken ==> f in mem
      requires forall i, j :: 0 <= i < j < |taken| ==> taken[i] != taken[j]
      modifies this`mem, this`avail
      ensures mem == old(mem) - (set f | f in taken)
      ensures multiset(avail) == multiset(old(avail)) + multiset(taken)
      ensures taken == [] ==> S() == old(S())
    {
      for k := 0 to |taken|
        invariant mem == old(mem) - (set f | f in taken[..k])
        invariant multiset(avail) == multiset(old(avail)) + multiset(taken[..k])
        invariant taken == [] ==> S() == old(S())
      {
        assert taken[..k + 1] == taken[..k] + [taken[k]];
        FreePage(taken[k]);
      }
      assert taken[..|taken|] == taken;
    }

    /** One missing table: allocated, cleared and linked. */
    method LinkTable(t: FrameNo, i: Idx) returns (page: Option<FrameNo>)
      requires Free(S(), t, i) && |place[t]| <= 2
      modifies this`mem, this`avail, this`place
      ensures page.None? ==> old(avail) == [] && S() == old(S())
      ensures page.Some? ==> old(avail) != [] && page.value == old(avail)[0] && S() == Grafted(old(S()), t, i)
    {
      page := AllocPage();
      if page.Some? {
        mem := mem[page.value := Blank(512)];
        mem := Put(mem, t, i, TableWord(page.value));
        place := place[page.value := place[t] + [i]];
      }
    }

    /** One turn of the loop over levels 0 to 2: the table below `t`, which is made if it is missing. */
    method NextTable(t: FrameNo, i: Idx, ghost rest: Path, ghost leaf: Word)
      returns (next: Option<FrameNo>, taken: seq<FrameNo>)
      requires TreeShape(S()) && t in place && |place[t]| <= 2
      requires |rest| >= 2 && rest[0] == i
      modifies this`mem, this`avail, this`place
      ensures roots == old(roots)
      ensures next.None? ==> S() == old(S()) && MapBelow(S(), t, rest, leaf) == OutOfMemory(S()) && taken == []
      ensures next.Some? ==>
        && Reached(old(S()), t, rest, leaf, S(), next.value, rest[1..], taken)
        && |place[next.value]| == |old(place)[t]| + 1
    {
      ghost var s := S();
      assert At(mem, t)[i].valid ==> Linked(place, place[t], i, At(mem, t)[i]);
      taken := [];
      if !At(mem, t)[i].valid {
        var page := LinkTable(t, i);
        if page.None? {
          return None, [];
        }
        GraftedShape(s, t, i);
        taken := [page.value];
        BlankMaps(S(), page.value, rest[1..], leaf);
      }
      next := Some(At(mem, t)[i].frame);
    }

    /** Levels 0 to 2 of `mem_user_map_page`. */
    method LastTable(root: FrameNo, va: Path, ghost leaf: Word) returns (last: Option<FrameNo>, taken: seq<FrameNo>)
      requires TreeShape(S()) && root in roots && |va| == 4
      modifies this`mem, this`avail, this`place
      ensures roots == old(roots)
      ensures last.None? ==>
        && TreeShape(S()) && MapBelow(old(S()), root, va, leaf) == OutOfMemory(S())
        && old(avail) == taken + avail && mem.Keys == old(mem.Keys) + (set f | f in taken)
      ensures last.Some? ==>
        && Reached(old(S()), root, va, leaf, S(), last.value, va[3..], taken)
        && |place[last.value]| == 3
    {
      ghost var s := S();
      var t := root;
      taken := [];
      assert va[0..] == va;
      for i := 0 to 3
        invariant roots == s.roots && t in place && |place[t]| == i
        invariant Reached(s, root, va, leaf, S(), t, va[i..], taken)
      {
        assert va[i..][0] == va[i] && va[i..][1..] == va[i + 1..];
        ghost var s1, t1, before := S(), t, taken;
        var next, more := NextTable(t, va[i], va[i..], leaf);
        if next.None? {
          return None, taken;
        }
        taken, t := taken + more, next.value;
        ReachedTrans(s, root, va, leaf, s1, t1, va[i..], before, S(), t, va[i + 1..], more);
      }
      last := Some(t);
    }

    /** The part of `mem_user_map_page` that follows the attributes: `leaf` is put in its place. */
    method PlaceLeaf(root: FrameNo, va: Path, leaf: Word) returns (err: Err)
      requires TreeShape(S()) && root in roots && |va| == 4
      modifies this`mem, this`avail, this`place
      ensures
        match MapBelow(old(S()), root, va, leaf)
        case Mapped(s) => err == ErrOk && S() == s
        case Exists(s) => err == ErrExs && S() == old(S())
        case OutOfMemory(s) =>
          && err == ErrOom && mem == GivenBack(old(S()), s) && place == old(place)
          && multiset(avail) == multiset(old(avail))
    {
      ghost var s := S();
      var last, taken := LastTable(root, va, leaf);
      TakenFrames(s, taken, avail);
      ghost var s1, out := S(), MapBelow(s, root, va, leaf);
      if last.None? {
        GiveBack(taken);
        place := s.place;
        assert out == OutOfMemory(s1) && mem == GivenBack(s, s1);
        return ErrOom;
      }
      assert va[3..] == [va[3]];
      if At(mem, last.value)[va[3]].valid {
        assert out == MapResult.Exists(s1) && taken == [];
        GiveBack(taken);
        return ErrExs;
      }
      mem := Put(mem, last.value, va[3], leaf);
      assert out == Mapped(S());
      return ErrOk;
    }

    /** `mem_user_map_page` */
    method MapPage(root: FrameNo, va: Path, frame: FrameNo, perm: Perm, attr: Attr) returns (err: Err)
      requires TreeShape(S()) && root in roots && |va| == 4
      modifies this`mem, this`avail, this`place
      ensures perm == NoPerm <==> err == ErrFlg
      ensures err == ErrFlg ==> S() == old(S())
      ensures perm != NoPerm ==>
        match MapBelow(old(S()), root, va, LeafWord(frame, perm, attr))
        case Mapped(s) => err == ErrOk && S() == s
        case Exists(s) => err == ErrExs && S() == old(S())
        case OutOfMemory(s) =>
          && err == ErrOom && mem == GivenBack(old(S()), s) && place == old(place)
          && multiset(avail) == multiset(old(avail))
      ensures err == ErrOk ==> MappedAs(mem, root, va, frame, perm, attr)
    {
      if perm == NoPerm {
        return ErrFlg;
      }
      MappedRights(S(), root, va, frame, perm, attr);
      err := PlaceLeaf(root, va, LeafWord(frame, perm, attr));
    }

    /** `mem_user_unmap_page` */
    method UnmapPage(root: FrameNo, va: Path) returns (res: UnmapResult)
      requires TreeShape(S()) && root in roots && |va| == 4
      modifies this`mem
      ensures (S(), res) == Unmap(old(S()), root, va)
    {
      FourLevels(S(), root, va);
      if !At(mem, root)[va[0]].valid {
        return NotMapped;
      }
      var level1 := At(mem, root)[va[0]].frame;
      if !At(mem, level1)[va[1]].valid {
        return NotMapped;
      }
      if !At(mem, level1)[va[1]].page {
        assert false;
      }
      var level2 := At(mem, level1)[va[1]].frame;
      if !At(mem, level2)[va[2]].valid {
        return NotMapped;
      }
      if !At(mem, level2)[va[2]].page {
        assert false;
      }
      var level3 := At(mem, level2)[va[2]].frame;
      if !At(mem, level3)[va[3]].valid {
        return NotMapped;
      }
      var refs := At(mem, level3)[va[3]].refs;
      if refs > 0 {
        mem := Put(mem, level3, va[3], Freed(At(mem, level3)[va[3]]));
      }
      if refs == 0 {
        return Kept(At(mem, level3)[va[3]].frame);
      }
      PutTwice(old(mem), level3, va[3], Freed(At(old(mem), level3)[va[3]]), ZERO);
      mem := Put(mem, level3, va[3], ZERO);
      return Removed;
    }

    /** `mem_user_get_kaddr`, up to the constant offset of the kernel's linear mapping. */
    method GetKaddr(root: FrameNo, va: Path) returns (frame: Option<FrameNo>)
      requires TreeShape(S()) && root in roots && |va| == 4
      ensures frame == WalkTo(mem, root, va)
    {
      FourLevels(S(), root, va);
      if !At(mem, root)[va[0]].valid {
        return None;
      }
      var level1 := At(mem, root)[va[0]].frame;
      if !At(mem, level1)[va[1]].valid {
        return None;
      }
      var kaddr := At(mem, level1)[va[1]].frame;
      if !At(mem, level1)[va[1]].page {
        return Some(kaddr);
      }
      var level2 := kaddr;
      if !At(mem, level2)[va[2]].valid {
        return None;
      }
      kaddr := At(mem, level2)[va[2]].frame;
      if !At(mem, level2)[va[2]].page {
        return Some(kaddr);
      }
      var level3 := kaddr;
      if !At(mem, level3)[va[3]].valid {
        return None;
      }
      return Some(At(mem, level3)[va[3]].frame);
    }

    /** The test of one page inside `mem_user_find_empty`. */
    method IsTaken(root: FrameNo, va: Path) returns (taken: bool)
      requires TreeShape(S()) && root in roots && |va| == 4
      ensures taken == WalkTo(mem, root, va).Some?
    {
      FourLevels(S(), root, va);
      if !At(mem, root)[va[0]].valid {
        return false;
      }
      var level1 := At(mem, root)[va[0]].frame;
      if !At(mem, level1)[va[1]].valid {
        return false;
      }
      if !At(mem, level1)[va[1]].page {
        return true;
      }
      var level2 := At(mem, level1)[va[1]].frame;
      if !At(mem, level2)[va[2]].valid {
        return false;
      }
      if !At(mem, level2)[va[2]].page {
        return true;
      }
      var level3 := At(mem, level2)[va[2]].frame;
      return At(mem, level3)[va[3]].valid;
    }

    /** At most `turns` turns of the outer loop of `mem_user_find_empty`, on page numbers of 64-bit addresses.
        Without a page it is still searching, `advance` pages after `start`: the source sets no limit. */
    method FindEmpty(root: FrameNo, start: nat, count: nat, turns: nat) returns (page: Option<nat>, ghost advance: nat)
      requires TreeShape(S()) && root in roots && start < ADDRESSES
      ensures page.Some? ==> page.value == (start + advance) % ADDRESSES && FirstVacant(mem, root, start, count, advance)
      ensures page.None? ==> advance >= turns && NoVacantBefore(mem, root, start, count, advance)
      ensures page.Some? ==> exists a: nat :: FirstVacant(mem, root, start, count, a) && page.value == (start + a) % ADDRESSES
      ensures page.None? ==> NoVacantBefore(mem, root, start, count, turns)
    {
      var addr := start;
      advance := 0;
      for turn := 0 to turns
        invariant advance >= turn && addr == (start + advance) % ADDRESSES
        invariant NoVacantBefore(mem, root, start, count, advance)
      {
        var k := VacantFrom(root, addr, count, start + advance);
        if k == count {
          assert FirstVacant(mem, root, start, count, advance);
          return Some(addr), advance;
        }
        NoVacantRun(mem, root, start + advance, count, k);
        AddressAdd(start + advance, k + 1);
        addr := (addr + k + 1) % ADDRESSES;
        advance := advance + k + 1;
      }
      page := None;
    }

    /** The inner loop: the number of unused pages from address `addr`, which has the indices of page `at`. */
    method VacantFrom(root: FrameNo, addr: nat, count: nat, ghost at: nat) returns (k: nat)
      requires TreeShape(S()) && root in roots && addr == at % ADDRESSES
      ensures k <= count && Vacant(mem, root, at, k) && (k < count ==> !Unused(mem, root, at + k))
    {
      k := 0;
      while k < count
        invariant k <= count && Vacant(mem, root, at, k)
      {
        AddressAdd(at, k);
        AddressPath(at + k);
        var taken := IsTaken(root, PathOf((addr + k) % ADDRESSES));
        if taken {
          break;
        }
        k := k + 1;
      }
    }
  }
}
