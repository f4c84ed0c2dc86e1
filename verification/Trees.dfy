/** What `mem_table_teardown` (mem.c) does to a tree of tables: every valid entry is visited, from the bottom up.  With
    counter zero the frame it points to is given back and the entry is cleared; otherwise the counter is lowered. */
module Trees {
  import opened Words
  import opened Paging

  // ---------------------------------------------------------------- what hangs below

  /** The frames that hang below entry `i` of a table of height `d`; a last-level table has height 1. */
  function Entry(m: Mem, t: FrameNo, d: nat, i: Idx): set<FrameNo>
    requires 1 <= d
    decreases d, 0
  {
    var w := At(m, t)[i];
    if !w.valid then {} else if d == 1 then {w.frame} else {w.frame} + Below(m, w.frame, d - 1, 512)
  }

  /** The frames below the first `n` entries of `t`. */
  function Below(m: Mem, t: FrameNo, d: nat, n: nat): (s: set<FrameNo>)
    requires 1 <= d && n <= 512
    ensures forall i: Idx :: i < n ==> Entry(m, t, d, i) <= s
    decreases d, n + 1
  {
    if n == 0 then {} else Below(m, t, d, n - 1) + Entry(m, t, d, n - 1)
  }

  lemma {:induction false} BelowFrom(m: Mem, t: FrameNo, d: nat, n: nat, f: FrameNo)
    requires 1 <= d && n <= 512 && f in Below(m, t, d, n)
    ensures exists i: Idx :: i < n && f in Entry(m, t, d, i)
  {
    if f in Entry(m, t, d, n - 1) {
      var i: Idx := n - 1;
      assert f in Entry(m, t, d, i);
    } else {
      BelowFrom(m, t, d, n - 1, f);
    }
  }

  /** A tree without aliases in itself and without blocks.  Other trees may share parts of it. */
  ghost predicate Tree(m: Mem, t: FrameNo, d: nat)
    requires 1 <= d
    decreases d
  {
    && (forall i: Idx :: At(m, t)[i].valid ==> t !in Entry(m, t, d, i))
    && (forall i: Idx, j: Idx :: i < j ==> Entry(m, t, d, i) !! Entry(m, t, d, j))
    && (d > 1 ==> forall i: Idx :: At(m, t)[i].valid ==> At(m, t)[i].page && Tree(m, At(m, t)[i].frame, d - 1))
  }

  /** All counters in it are zero. */
  ghost predicate Sole(m: Mem, t: FrameNo, d: nat)
    requires 1 <= d
    decreases d
  {
    && (forall i: Idx :: At(m, t)[i].valid ==> At(m, t)[i].refs == 0)
    && (d > 1 ==> forall i: Idx :: At(m, t)[i].valid ==> Sole(m, At(m, t)[i].frame, d - 1))
  }

  // ---------------------------------------------------------------- what a teardown does to it

  /** One entry after the visit. */
  function TornWord(w: Word): Word {
    if !w.valid then w else if w.refs > 0 then Freed(w) else ZERO
  }

  /** A table after its first `n` entries were visited. */
  function TornPage(p: Page, n: nat): (r: Page)
    requires n <= 512
    ensures forall i: Idx :: r[i] == if i < n then TornWord(p[i]) else p[i]
  {
    if n == 0 then p else TornPage(p, n - 1)[n - 1 := TornWord(p[n - 1])]
  }

  /** The frames given back at entry `i`, and below the first `n` entries. */
  function Gone(m: Mem, t: FrameNo, d: nat, i: Idx): (s: set<FrameNo>)
    requires 1 <= d
    decreases d, 0
  {
    var w := At(m, t)[i];
    if !w.valid then {}
    else (if d == 1 then {} else GoneBelow(m, w.frame, d - 1, 512)) + (if w.refs == 0 then {w.frame} else {})
  }

  function GoneBelow(m: Mem, t: FrameNo, d: nat, n: nat): (s: set<FrameNo>)
    requires 1 <= d && n <= 512
    decreases d, n + 1
  {
    if n == 0 then {} else GoneBelow(m, t, d, n - 1) + Gone(m, t, d, n - 1)
  }

  /** The tables visited below entry `i`, and below the first `n` entries. */
  function Visited(m: Mem, t: FrameNo, d: nat, i: Idx): (s: set<FrameNo>)
    requires 1 <= d
    decreases d, 0
  {
    var w := At(m, t)[i];
    if !w.valid || d == 1 then {} else {w.frame} + VisitedBelow(m, w.frame, d - 1, 512)
  }

  function VisitedBelow(m: Mem, t: FrameNo, d: nat, n: nat): (s: set<FrameNo>)
    requires 1 <= d && n <= 512
    decreases d, n + 1
  {
    if n == 0 then {} else VisitedBelow(m, t, d, n - 1) + Visited(m, t, d, n - 1)
  }

  lemma {:induction false} WithinEntry(m: Mem, t: FrameNo, d: nat, i: Idx)
    requires 1 <= d
    ensures Gone(m, t, d, i) <= Entry(m, t, d, i) && Visited(m, t, d, i) <= Entry(m, t, d, i)
    decreases d, 0
  {
    var w := At(m, t)[i];
    if w.valid && d > 1 { WithinBelow(m, w.frame, d - 1, 512); }
  }

  lemma {:induction false} WithinBelow(m: Mem, t: FrameNo, d: nat, n: nat)
    requires 1 <= d && n <= 512
    ensures GoneBelow(m, t, d, n) <= Below(m, t, d, n) && VisitedBelow(m, t, d, n) <= Below(m, t, d, n)
    decreases d, n + 1
  {
    if n > 0 {
      WithinEntry(m, t, d, n - 1);
      WithinBelow(m, t, d, n - 1);
    }
  }

  // ---------------------------------------------------------------- trees depend on their own tables only

  ghost predicate Agree(m: Mem, m': Mem, s: set<FrameNo>) {
    forall f :: f in s ==> At(m', f) == At(m, f)
  }

  lemma AgreeBelow(m: Mem, m': Mem, t: FrameNo, d: nat, n: nat, i: Idx)
    requires 1 < d && i < n <= 512 && Agree(m, m', {t} + Below(m, t, d, n)) && At(m, t)[i].valid
    ensures Agree(m, m', {At(m, t)[i].frame} + Below(m, At(m, t)[i].frame, d - 1, 512))
  {
    var c := At(m, t)[i].frame;
    var s := {c} + Below(m, c, d - 1, 512);
    assert Entry(m, t, d, i) == s;
    forall f | f in s
      ensures At(m', f) == At(m, f)
    {
      assert f in Below(m, t, d, n);
    }
  }

  /** What a teardown visits, and gives back, at entry `i`. */
  ghost predicate SameAt(m: Mem, m': Mem, t: FrameNo, d: nat, i: Idx)
    requires 1 <= d
  {
    && Entry(m', t, d, i) == Entry(m, t, d, i) && Gone(m', t, d, i) == Gone(m, t, d, i)
    && Visited(m', t, d, i) == Visited(m, t, d, i)
  }

  ghost predicate SameUpTo(m: Mem, m': Mem, t: FrameNo, d: nat, n: nat)
    requires 1 <= d && n <= 512
  {
    && Below(m', t, d, n) == Below(m, t, d, n) && GoneBelow(m', t, d, n) == GoneBelow(m, t, d, n)
    && VisitedBelow(m', t, d, n) == VisitedBelow(m, t, d, n)
  }

  lemma {:induction false} SameBelow(m: Mem, m': Mem, t: FrameNo, d: nat, n: nat)
    requires 1 <= d && n <= 512 && Agree(m, m', {t} + Below(m, t, d, n))
    ensures SameUpTo(m, m', t, d, n)
    decreases d, n + 1
  {
    if n > 0 {
      SameEntry(m, m', t, d, n, n - 1);
      SameBelow(m, m', t, d, n - 1);
    }
  }

  lemma {:induction false} SameEntry(m: Mem, m': Mem, t: FrameNo, d: nat, n: nat, i: Idx)
    requires 1 <= d && i < n <= 512 && Agree(m, m', {t} + Below(m, t, d, n))
    ensures SameAt(m, m', t, d, i)
    decreases d, 0
  {
    var w := At(m, t)[i];
    assert t in {t} + Below(m, t, d, n);
    if w.valid && d > 1 {
      AgreeBelow(m, m', t, d, n, i);
      SameBelow(m, m', w.frame, d - 1, 512);
    }
  }

  lemma {:induction false} SameTree(m: Mem, m': Mem, t: FrameNo, d: nat)
    requires 1 <= d && Tree(m, t, d) && Agree(m, m', {t} + Below(m, t, d, 512))
    ensures Tree(m', t, d)
    decreases d
  {
    assert t in {t} + Below(m, t, d, 512);
    forall i: Idx
      ensures Entry(m', t, d, i) == Entry(m, t, d, i)
    {
      SameEntry(m, m', t, d, 512, i);
    }
    if d > 1 {
      forall i: Idx | At(m', t)[i].valid
        ensures Tree(m', At(m', t)[i].frame, d - 1)
      {
        AgreeBelow(m, m', t, d, 512, i);
        SameTree(m, m', At(m, t)[i].frame, d - 1);
      }
    }
  }

  // ---------------------------------------------------------------- how a tree grows by one entry

  lemma NotBelow(m: Mem, t: FrameNo, d: nat, n: nat)
    requires 1 <= d && n <= 512 && Tree(m, t, d)
    ensures t !in Below(m, t, d, n)
  {
    if t in Below(m, t, d, n) {
      BelowFrom(m, t, d, n, t);
    }
  }

  lemma EntryApart(m: Mem, t: FrameNo, d: nat, n: Idx)
    requires 1 <= d && Tree(m, t, d)
    ensures Entry(m, t, d, n) !! Below(m, t, d, n) && t !in Entry(m, t, d, n)
    ensures Entry(m, t, d, n) <= Below(m, t, d, 512)
  {
    forall f | f in Below(m, t, d, n)
      ensures f !in Entry(m, t, d, n)
    {
      BelowFrom(m, t, d, n, f);
      var i: Idx :| i < n && f in Entry(m, t, d, i);
      assert Entry(m, t, d, i) !! Entry(m, t, d, n);
    }
    if At(m, t)[n].valid { assert t !in Entry(m, t, d, n); }
  }

  /** What hangs below a table, without the table itself. */
  function Inside(m: Mem, c: FrameNo, d: nat): set<FrameNo>
    requires 1 <= d
  {
    if d > 1 then Below(m, c, d - 1, 512) else {}
  }

  lemma EntryIs(m: Mem, t: FrameNo, d: nat, n: Idx)
    requires 1 <= d && Tree(m, t, d) && At(m, t)[n].valid
    ensures Entry(m, t, d, n) == {At(m, t)[n].frame} + Inside(m, At(m, t)[n].frame, d)
    ensures At(m, t)[n].frame !in Inside(m, At(m, t)[n].frame, d)
  {
    if d > 1 { NotBelow(m, At(m, t)[n].frame, d - 1, 512); }
  }

  /** How the tree of `t` grows by entry `n`. */
  lemma TreeStep(m: Mem, t: FrameNo, d: nat, n: Idx)
    requires 1 <= d && Tree(m, t, d) && At(m, t)[n].valid
    ensures var w := At(m, t)[n]; var e := {w.frame} + Inside(m, w.frame, d);
            && w.frame !in Inside(m, w.frame, d)
            && Below(m, t, d, n + 1) == Below(m, t, d, n) + e
            && e !! Below(m, t, d, n) && t !in e && t !in Below(m, t, d, n) && e <= Below(m, t, d, 512)
            && (d > 1 ==> w.page && Tree(m, w.frame, d - 1))
  {
    EntryApart(m, t, d, n);
    EntryIs(m, t, d, n);
    NotBelow(m, t, d, n);
  }

  // ---------------------------------------------------------------- trees that share nothing

  /** With all counters at zero everything is given back. */
  lemma {:induction false} SoleGone(m: Mem, t: FrameNo, d: nat, n: nat)
    requires 1 <= d && n <= 512 && Sole(m, t, d)
    ensures GoneBelow(m, t, d, n) == Below(m, t, d, n)
    decreases d, n
  {
    if n > 0 {
      SoleGone(m, t, d, n - 1);
      var w := At(m, t)[n - 1];
      if w.valid && d > 1 { SoleGone(m, w.frame, d - 1, 512); }
    }
  }

  /** And every table is empty in the end. */
  lemma SolePage(m: Mem, t: FrameNo, d: nat)
    requires 1 <= d && Sole(m, t, d)
    ensures forall i: Idx :: !TornPage(At(m, t), 512)[i].valid
  {
    forall i: Idx
      ensures !TornPage(At(m, t), 512)[i].valid
    {
      assert At(m, t)[i].valid ==> At(m, t)[i].refs == 0;
    }
  }
}
