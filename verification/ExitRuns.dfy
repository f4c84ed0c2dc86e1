/** When an exit is safe, over whole runs: every entry below the top level that counts nobody leads to a frame of one
    process only, so that the top-level entries, which no fork marks, decide alone. */
module ExitRuns {
  import opened Options
  import opened Words
  import opened Paging
  import opened Cow
  import opened Trees
  import opened CowExit
  import opened CowMaps
  import opened CowRuns
  import UserMap

  // ---------------------------------------------------------------- the invariant

  /** How many owners an entry has to count: those who reach its table, and one more if others reach what it leads to;
      those in `but` do not matter. */
  function Claim(table: set<FrameNo>, target: set<FrameNo>, but: set<FrameNo>): nat {
    |table - but| + if target - but == table - but then 0 else 1
  }

  /** The owners of the table and of what entry `i` leads to. */
  function Owners(s: Spaces, t: FrameNo): set<FrameNo>
    requires t in s.place
  {
    Sharers(s, s.place[t], t)
  }

  function TargetOwners(s: Spaces, t: FrameNo, i: Idx): set<FrameNo>
    requires t in s.place
  {
    Sharers(s, s.place[t] + [i], At(s.mem, t)[i].frame)
  }

  /** An entry below the top level. */
  ghost predicate Below(s: Spaces, t: FrameNo, i: Idx) {
    t in s.place && 1 <= |s.place[t]| <= 3 && At(s.mem, t)[i].valid
  }

  ghost predicate KeptAt(s: Spaces, t: FrameNo, i: Idx, but: set<FrameNo>)
    requires Below(s, t, i)
  {
    Claim(Owners(s, t), TargetOwners(s, t, i), but) <= At(s.mem, t)[i].refs + 1
  }

  ghost predicate Kept(s: Spaces) {
    forall t, i: Idx :: Below(s, t, i) ==> KeptAt(s, t, i, {})
  }

  /** Half way through an abort of `root`: not yet so for the entries that lead to `x`. */
  ghost predicate KeptBut(s: Spaces, x: FrameNo, root: FrameNo) {
    forall t, i: Idx :: Below(s, t, i) ==> KeptAt(s, t, i, if At(s.mem, t)[i].frame == x then {root} else {})
  }

  /** Who reaches a table reaches what its entries lead to. */
  lemma OwnersGoOn(s: Spaces, t: FrameNo, i: Idx)
    requires Below(s, t, i)
    ensures Owners(s, t) <= TargetOwners(s, t, i)
  {
    forall r | r in Owners(s, t)
      ensures r in TargetOwners(s, t, i)
    {
      WalkStep(s.mem, r, s.place[t], i);
    }
  }

  /** Leaving somebody out lowers the claim, by one if that is an owner of the table. */
  lemma ClaimBut(table: set<FrameNo>, target: set<FrameNo>, root: FrameNo)
    requires table <= target
    ensures Claim(table, target, {root}) <= Claim(table, target, {})
    ensures root in table ==> Claim(table, target, {root}) == Claim(table, target, {}) - 1
  {
    SmallerSet(table, root);
    assert table - {} == table && target - {} == target;
    if target - {root} == table - {root} && root in table {
      assert target == (target - {root}) + {root};
      assert table == (table - {root}) + {root};
    }
  }

  // ---------------------------------------------------------------- what it means for an exit

  /** An entry below the top level that counts nobody leads to a frame only one root reaches. */
  lemma CountsNobody(s: Spaces, t: FrameNo, i: Idx, r: FrameNo)
    requires Kept(s) && Below(s, t, i) && At(s.mem, t)[i].refs == 0 && r in Owners(s, t)
    ensures TargetOwners(s, t, i) == {r}
  {
    var a, b := Owners(s, t), TargetOwners(s, t, i);
    assert KeptAt(s, t, i, {});
    assert a - {} == a && b - {} == b;
    SmallerSet(a, r);
    assert |a - {r}| == 0;
    assert a == {r};
  }

  /** The guard: the top-level entries of `r` that count nobody lead to tables of `r` alone. */
  ghost predicate OwnTops(s: Spaces, r: FrameNo) {
    forall i: Idx :: At(s.mem, r)[i].valid && At(s.mem, r)[i].refs == 0 ==> Sharers(s, [i], At(s.mem, r)[i].frame) <= {r}
  }

  lemma TopFreed(s: Spaces, r: FrameNo, i: Idx)
    requires Shape(s) && r in s.roots && At(s.mem, r)[i].valid && At(s.mem, r)[i].refs == 0
    ensures var f := At(s.mem, r)[i].frame; Frees(s, r, f) && s.place[f] == [i]
  {
    var f := At(s.mem, r)[i].frame;
    assert s.place[r] == [] && Linked(s.place, [], i, At(s.mem, r)[i]);
    WalkStep(s.mem, r, [], i);
    assert [] + [i] == [i] && Front([i]) == [];
  }

  lemma FreedOwn(s: Spaces, r: FrameNo, f: FrameNo)
    requires Shape(s) && Kept(s) && r in s.roots && OwnTops(s, r) && Frees(s, r, f)
    ensures Sharers(s, s.place[f], f) <= {r}
  {
    var q := s.place[f];
    var t, i := WalkTo(s.mem, r, Front(q)).value, Last(q);
    SnocIs(q, Front(q), i);
    WalkPlace(s.mem, s.place, r, Front(q));
    WalkStep(s.mem, r, Front(q), i);
    if |q| == 1 {
      assert q == [i] && t == r;
    } else {
      assert r in Owners(s, t);
      CountsNobody(s, t, i, r);
    }
  }

  /** Exactly when the teardown of `r` gives back a frame that another process still walks to: read off the top-level
      table before the call. */
  lemma ExitIff(s: Spaces, r: FrameNo)
    requires Shape(s) && Counted(s) && Kept(s) && r in s.roots
    ensures Dangles(s, r) <==> !OwnTops(s, r)
    ensures FreesOwn(s, r) <==> OwnTops(s, r)
  {
    DanglesIff(s, r);
    if OwnTops(s, r) {
      forall f | Frees(s, r, f)
        ensures Sharers(s, s.place[f], f) <= {r}
      {
        FreedOwn(s, r, f);
      }
    } else {
      var i: Idx :| At(s.mem, r)[i].valid && At(s.mem, r)[i].refs == 0 && !(Sharers(s, [i], At(s.mem, r)[i].frame) <= {r});
      TopFreed(s, r, i);
    }
  }

  // ---------------------------------------------------------------- start and fork

  lemma OneRootKept(s: Spaces)
    requires |s.roots| <= 1
    ensures Kept(s)
  {
    forall t, i: Idx | Below(s, t, i)
      ensures KeptAt(s, t, i, {})
    {
      var a, b := Owners(s, t), TargetOwners(s, t, i);
      OwnersGoOn(s, t, i);
      SubsetSize(b, s.roots);
      SubsetSize(a, b);
      assert a - {} == a && b - {} == b;
      if a != {} {
        var r :| r in a;
        SmallerSet(b, r);
        assert b == {r} == a;
      }
    }
  }

  /** No counter the fork is about to raise is at its limit although the entry has sixteen owners to count. */
  ghost predicate Room(s: Spaces, parent: FrameNo) {
    forall t, i: Idx :: Below(s, t, i) && Marks(s, parent, t, i) && At(s.mem, t)[i].refs == 15 ==>
      Claim(Owners(s, t), TargetOwners(s, t, i), {}) <= 15
  }

  lemma RoomCountable(s: Spaces, parent: FrameNo)
    requires Room(s, parent)
    ensures Countable(s, parent)
  {
    forall t, i: Idx | t in s.place && Marks(s, parent, t, i) && At(s.mem, t)[i].valid && At(s.mem, t)[i].refs == 15
      ensures |Sharers(s, s.place[t], t)| <= 15
    {
      assert Below(s, t, i);
      assert Owners(s, t) - {} == Owners(s, t);
    }
  }

  /** A newcomer. */
  lemma OneMore(table: set<FrameNo>, c: FrameNo)
    requires c !in table
    ensures |table + {c}| == |table| + 1 && (table + {c}) - {c} == table
  {
  }

  function With(s: set<FrameNo>, c: FrameNo, here: bool): set<FrameNo> {
    if here then s + {c} else s
  }

  lemma SameWith(table: set<FrameNo>, target: set<FrameNo>, c: FrameNo, here: bool, there: bool)
    requires c !in table && c !in target && (here ==> there) && (there && !here ==> target != table)
    ensures With(table, c, here) == With(target, c, there) <==> table == target
  {
    OneMore(table, c);
    OneMore(target, c);
  }

  /** A newcomer who shares the table raises the claim by one, and nobody else does. */
  lemma ClaimMore(table: set<FrameNo>, target: set<FrameNo>, c: FrameNo, here: bool, there: bool)
    requires table <= target && c !in target && (here ==> there) && (there && !here ==> target != table)
    ensures Claim(With(table, c, here), With(target, c, there), {})
         == Claim(table, target, {}) + if here then 1 else 0
  {
    OneMore(table, c);
    SameWith(table, target, c, here, there);
    ClaimPlain(table, target);
    ClaimPlain(With(table, c, here), With(target, c, there));
  }

  lemma ClaimPlain(table: set<FrameNo>, target: set<FrameNo>)
    ensures Claim(table, target, {}) == |table| + if target == table then 0 else 1
  {
    assert table - {} == table && target - {} == target;
  }

  lemma ForkOwners(s: Spaces, parent: FrameNo, m: Mem, t: FrameNo, i: Idx)
    requires Shape(s) && parent in s.roots && s.avail != [] && SoftCopied(s, parent, m) && Below(s, t, i)
    ensures var s', c := Child(s, parent, m), s.avail[0];
            var here, there := parent in Owners(s, t), parent in TargetOwners(s, t, i);
            && Below(s', t, i) && c !in Owners(s, t) && c !in TargetOwners(s, t, i)
            && Owners(s', t) == With(Owners(s, t), c, here)
            && TargetOwners(s', t, i) == With(TargetOwners(s, t, i), c, there)
  {
    ForkSharers(s, parent, m, s.place[t], t);
    ForkSharers(s, parent, m, s.place[t] + [i], At(s.mem, t)[i].frame);
    assert t != s.avail[0] && At(Child(s, parent, m).mem, t) == At(m, t);
  }

  lemma ForkKeptAt(s: Spaces, parent: FrameNo, m: Mem, t: FrameNo, i: Idx)
    requires Shape(s) && parent in s.roots && s.avail != [] && SoftCopied(s, parent, m) && Below(s, t, i)
    ensures var s' := Child(s, parent, m);
            && Below(s', t, i)
            && Claim(Owners(s', t), TargetOwners(s', t, i), {})
            == Claim(Owners(s, t), TargetOwners(s, t, i), {}) + (if Marks(s, parent, t, i) then 1 else 0)
            && At(s'.mem, t)[i].refs
            == At(s.mem, t)[i].refs + if Marks(s, parent, t, i) && At(s.mem, t)[i].refs < 15 then 1 else 0
  {
    var a, b := Owners(s, t), TargetOwners(s, t, i);
    ForkOwners(s, parent, m, t, i);
    OwnersGoOn(s, t, i);
    ClaimMore(a, b, s.avail[0], parent in a, parent in b);
    assert t != s.avail[0] && At(Child(s, parent, m).mem, t) == At(m, t);
    assert parent in a <==> Marks(s, parent, t, i);
  }

  /** Exactly when a fork keeps the invariant: read off the state before it. */
  lemma ForkKept(s: Spaces, parent: FrameNo, m: Mem)
    requires Shape(s) && Kept(s) && parent in s.roots && s.avail != [] && SoftCopied(s, parent, m)
    ensures Kept(Child(s, parent, m)) <==> Room(s, parent)
  {
    var s' := Child(s, parent, m);
    forall t, i: Idx | Below(s, t, i)
      ensures Below(s', t, i) && (KeptAt(s', t, i, {}) <==>
              (Marks(s, parent, t, i) && At(s.mem, t)[i].refs == 15 ==> Claim(Owners(s, t), TargetOwners(s, t, i), {}) <= 15))
    {
      ForkKeptAt(s, parent, m, t, i);
      assert KeptAt(s, t, i, {});
    }
    forall t, i: Idx | Below(s', t, i)
      ensures Below(s, t, i)
    {
      assert t != s.avail[0] && At(s'.mem, t) == At(m, t);
    }
  }

  // ---------------------------------------------------------------- data aborts

  /** Splitting a table between `root`, who gets the copy, and the others. */
  lemma ClaimSplit(table: set<FrameNo>, target: set<FrameNo>, root: FrameNo)
    requires table <= target && root in table
    ensures Claim({root}, target, {}) <= Claim(table, target, {})
    ensures Claim(table - {root}, target, {}) <= Claim(table, target, {})
    ensures Claim({root}, target, {root}) <= 1
    ensures Claim(table - {root}, target, {root}) <= Claim(table, target, {}) - 1
  {
    ClaimPlain(table, target);
    ClaimPlain({root}, target);
    ClaimPlain(table - {root}, target);
    ClaimBut(table, target, root);
    SmallerSet(table, root);
    assert (table - {root}) - {root} == table - {root} && {root} - {root} == {};
    if |table| == 1 { assert table == {root} by { assert |table - {root}| == 0; } }
  }

  /** The entry that was overwritten counts nobody, and nobody else uses it. */
  lemma MovedHere(s: Spaces, h: Hop, w: Word, page: Page)
    requires Redirects(s, h, w, page) && Site(s, h) && h.path != []
    ensures var s' := Redirected(s, h, w, page); Below(s', h.parent, h.pi) && KeptAt(s', h.parent, h.pi, {})
  {
    SitePlaces(s, h);
    RedirectedSharers(s, h, w, page, h.path, h.parent);
    RedirectedSharers(s, h, w, page, h.path + [h.pi], s.avail[0]);
    RedirectedWord(s, h, w, page, h.parent, h.pi);
    ClaimPlain({h.root}, {h.root});
  }

  /** Entries elsewhere. */
  ghost predicate Elsewhere(s: Spaces, h: Hop, t: FrameNo, j: Idx)
    requires s.avail != []
  {
    t != s.avail[0] && t != Target(s, h) && !(t == h.parent && j == h.pi)
  }

  /** Whoever else leads to the target does so without `root`. */
  lemma OthersLead(s: Spaces, h: Hop, t: FrameNo, j: Idx)
    requires Shape(s) && Site(s, h) && Below(s, t, j) && !(t == h.parent && j == h.pi)
    requires s.place[t] + [j] == h.path + [h.pi]
    ensures h.root !in Owners(s, t)
  {
    SnocIs(s.place[t] + [j], h.path, h.pi);
    assert Front(s.place[t] + [j]) == s.place[t];
  }

  lemma MovedElse(s: Spaces, h: Hop, w: Word, page: Page, t: FrameNo, j: Idx)
    requires Redirects(s, h, w, page) && Site(s, h) && Below(Redirected(s, h, w, page), t, j) && Elsewhere(s, h, t, j)
    ensures var s' := Redirected(s, h, w, page);
            && Below(s, t, j) && s'.place[t] == s.place[t] && At(s'.mem, t)[j] == At(s.mem, t)[j]
            && Owners(s', t) == Owners(s, t)
            && TargetOwners(s', t, j)
            == if At(s.mem, t)[j].frame == Target(s, h) then TargetOwners(s, t, j) - {h.root} else TargetOwners(s, t, j)
  {
    SitePlaces(s, h);
    RedirectedWord(s, h, w, page, t, j);
    var g := At(s.mem, t)[j].frame;
    assert Linked(s.place, s.place[t], j, At(s.mem, t)[j]);
    RedirectedSharers(s, h, w, page, s.place[t], t);
    RedirectedSharers(s, h, w, page, s.place[t] + [j], g);
  }

  lemma KeptElse(s: Spaces, h: Hop, w: Word, page: Page, t: FrameNo, j: Idx)
    requires Redirects(s, h, w, page) && Site(s, h) && Below(Redirected(s, h, w, page), t, j) && Elsewhere(s, h, t, j)
    requires KeptBut(s, Target(s, h), h.root)
    ensures KeptAt(Redirected(s, h, w, page), t, j, {})
  {
    MovedElse(s, h, w, page, t, j);
    var a, b := Owners(s, t), TargetOwners(s, t, j);
    if At(s.mem, t)[j].frame == Target(s, h) {
      SitePlaces(s, h);
      assert Linked(s.place, s.place[t], j, At(s.mem, t)[j]);
      OthersLead(s, h, t, j);
      assert KeptAt(s, t, j, {h.root});
      assert a - {h.root} == a;
      ClaimPlain(a, b - {h.root});
    } else {
      assert KeptAt(s, t, j, {});
    }
  }

  /** The owners of the table that was copied and of its copy. */
  lemma MovedTable(s: Spaces, h: Hop, w: Word, page: Page, t: FrameNo, j: Idx)
    requires Redirects(s, h, w, page) && Site(s, h) && |h.path| <= 2 && At(s.mem, Target(s, h))[j].valid
    requires t == s.avail[0] || t == Target(s, h)
    ensures var s', x := Redirected(s, h, w, page), Target(s, h);
            && Below(s, x, j) && Below(s', t, j) && At(s'.mem, t)[j] == page[j] && page[j].frame == At(s.mem, x)[j].frame
            && h.root in Owners(s, x) && Owners(s, x) <= TargetOwners(s, x, j)
            && Owners(s', t) == (if t == x then Owners(s, x) - {h.root} else {h.root})
            && TargetOwners(s', t, j) == TargetOwners(s, x, j)
  {
    SitePlaces(s, h);
    var x := Target(s, h);
    RedirectedWord(s, h, w, page, t, j);
    RedirectedSharers(s, h, w, page, h.path + [h.pi], t);
    RedirectedSharers(s, h, w, page, h.path + [h.pi] + [j], At(s.mem, x)[j].frame);
    OwnersGoOn(s, x, j);
  }

  lemma KeptTable(s: Spaces, h: Hop, w: Word, page: Page, t: FrameNo, i: Idx, j: Idx)
    requires Redirects(s, h, w, page) && Site(s, h) && |h.path| <= 2 && At(s.mem, Target(s, h))[j].valid
    requires t == s.avail[0] || t == Target(s, h)
    requires KeptBut(s, Target(s, h), h.root)
    requires At(s.mem, Target(s, h))[i].refs > 0 && page == At(s.mem, Target(s, h))[i := Freed(At(s.mem, Target(s, h))[i])]
    ensures var s' := Redirected(s, h, w, page); Below(s', t, j) && KeptAt(s', t, j, if j == i then {h.root} else {})
  {
    var x := Target(s, h);
    MovedTable(s, h, w, page, t, j);
    assert At(s.mem, x)[j].frame != x by {
      SitePlaces(s, h);
      assert Linked(s.place, s.place[x], j, At(s.mem, x)[j]);
      assert |h.path + [h.pi] + [j]| != |h.path + [h.pi]|;
    }
    assert KeptAt(s, x, j, {});
    ClaimSplit(Owners(s, x), TargetOwners(s, x, j), h.root);
  }

  lemma Weaker(s: Spaces, t: FrameNo, j: Idx, x: FrameNo, root: FrameNo)
    requires Below(s, t, j) && KeptAt(s, t, j, {})
    ensures KeptAt(s, t, j, if At(s.mem, t)[j].frame == x then {root} else {})
  {
    OwnersGoOn(s, t, j);
    ClaimBut(Owners(s, t), TargetOwners(s, t, j), root);
  }

  /** The table behind `h` was the process's own already. */
  lemma KeptOwn(s: Spaces, h: Hop, t: FrameNo, j: Idx)
    requires Shape(s) && Site(s, h) && |h.path| <= 2 && KeptBut(s, Target(s, h), h.root) && Below(s, t, j)
    requires Sharers(s, h.path + [h.pi], Target(s, h)) == {h.root}
    ensures KeptAt(s, t, j, {})
  {
    var a, b := Owners(s, t), TargetOwners(s, t, j);
    if At(s.mem, t)[j].frame == Target(s, h) {
      SitePlaces(s, h);
      assert Linked(s.place, s.place[t], j, At(s.mem, t)[j]);
      OwnersGoOn(s, t, j);
      assert b == {h.root};
      ClaimPlain(a, b);
      if h.root in a { assert a == b; } else { assert a == {}; }
    } else {
      assert KeptAt(s, t, j, {});
    }
  }

  /** One level of an abort whose table is copied: all entries but the one that is followed next. */
  lemma CopyElse(s: Spaces, h: Hop, i: Idx, t: FrameNo, j: Idx)
    requires Inv(s) && Site(s, h) && |h.path| <= 2 && KeptBut(s, Target(s, h), h.root)
    requires At(s.mem, Target(s, h))[i].valid && At(s.mem, Target(s, h))[i].refs > 0 && s.avail != []
    requires Below(Own(s, h, i).s, t, j) && !((t == s.avail[0] || t == Target(s, h)) && j == i)
    ensures KeptAt(Own(s, h, i).s, t, j, {})
  {
    var x := Target(s, h);
    var w, page := TableWord(s.avail[0]), At(s.mem, x)[i := Freed(At(s.mem, x)[i])];
    CopyRedirects(s, h, i);
    if t == h.parent && j == h.pi {
      SitePlaces(s, h);
      MovedHere(s, h, w, page);
    } else if t == s.avail[0] || t == x {
      SitePlaces(s, h);
      RedirectedWord(s, h, w, page, t, j);
      KeptTable(s, h, w, page, t, i, j);
    } else {
      KeptElse(s, h, w, page, t, j);
    }
  }

  /** The entry that is followed next, in the table and in its copy. */
  lemma CopyNext(s: Spaces, h: Hop, i: Idx, t: FrameNo)
    requires Inv(s) && Site(s, h) && |h.path| <= 2 && KeptBut(s, Target(s, h), h.root)
    requires At(s.mem, Target(s, h))[i].valid && At(s.mem, Target(s, h))[i].refs > 0 && s.avail != []
    requires t == s.avail[0] || t == Target(s, h)
    ensures var s1 := Own(s, h, i).s;
            Below(s1, t, i) && KeptAt(s1, t, i, {h.root}) && At(s1.mem, t)[i].frame == At(s.mem, Target(s, h))[i].frame
  {
    var x := Target(s, h);
    var w, page := TableWord(s.avail[0]), At(s.mem, x)[i := Freed(At(s.mem, x)[i])];
    CopyRedirects(s, h, i);
    KeptTable(s, h, w, page, t, i, i);
    MovedTable(s, h, w, page, t, i);
  }

  lemma KeptCopy(s: Spaces, h: Hop, i: Idx, t: FrameNo, j: Idx)
    requires Inv(s) && Site(s, h) && |h.path| <= 2 && KeptBut(s, Target(s, h), h.root)
    requires At(s.mem, Target(s, h))[i].valid && At(s.mem, Target(s, h))[i].refs > 0 && s.avail != []
    requires Below(Own(s, h, i).s, t, j)
    ensures var s1 := Own(s, h, i).s;
            KeptAt(s1, t, j, if At(s1.mem, t)[j].frame == At(s.mem, Target(s, h))[i].frame then {h.root} else {})
  {
    if (t == s.avail[0] || t == Target(s, h)) && j == i {
      CopyNext(s, h, i, t);
    } else {
      CopyElse(s, h, i, t, j);
      Weaker(Own(s, h, i).s, t, j, At(s.mem, Target(s, h))[i].frame, h.root);
    }
  }

  lemma NextTarget(s: Spaces, h: Hop, i: Idx)
    requires Inv(s) && Site(s, h) && |h.path| <= 2 && At(s.mem, Target(s, h))[i].valid && Own(s, h, i).Done?
    ensures var s1 := Own(s, h, i).s; Target(s1, NextHop(s1, h, i)) == At(s.mem, Target(s, h))[i].frame
  {
    if At(s.mem, Target(s, h))[i].refs > 0 {
      var w, page := TableWord(s.avail[0]), At(s.mem, Target(s, h))[i := Freed(At(s.mem, Target(s, h))[i])];
      CopyRedirects(s, h, i);
      SitePlaces(s, h);
      RedirectedWord(s, h, w, page, h.parent, h.pi);
      RedirectedWord(s, h, w, page, s.avail[0], i);
    }
  }

  lemma OwnKept(s: Spaces, h: Hop, i: Idx)
    requires Inv(s) && Site(s, h) && |h.path| <= 2 && KeptBut(s, Target(s, h), h.root)
    requires At(s.mem, Target(s, h))[i].valid && Own(s, h, i).Done?
    ensures var s1 := Own(s, h, i).s; KeptBut(s1, Target(s1, NextHop(s1, h, i)), h.root)
  {
    var s1, g := Own(s, h, i).s, At(s.mem, Target(s, h))[i].frame;
    NextTarget(s, h, i);
    forall t, j: Idx | Below(s1, t, j)
      ensures KeptAt(s1, t, j, if At(s1.mem, t)[j].frame == g then {h.root} else {})
    {
      if At(s.mem, Target(s, h))[i].refs > 0 {
        KeptCopy(s, h, i, t, j);
      } else {
        SoleOwner(s, h, i);
        KeptOwn(s, h, t, j);
        Weaker(s, t, j, g, h.root);
      }
    }
  }

  lemma SoleOwner(s: Spaces, h: Hop, i: Idx)
    requires Inv(s) && Site(s, h) && |h.path| <= 2 && At(s.mem, Target(s, h))[i].valid && At(s.mem, Target(s, h))[i].refs == 0
    ensures Sharers(s, h.path + [h.pi], Target(s, h)) == {h.root}
  {
    SitePlaces(s, h);
    var who := Sharers(s, h.path + [h.pi], Target(s, h));
    SmallerSet(who, h.root);
    assert who == {h.root};
  }

  /** The page itself is copied. */
  lemma LastKept(s: Spaces, h: Hop)
    requires Inv(s) && Site(s, h) && |h.path| == 3 && KeptBut(s, Target(s, h), h.root) && s.avail != []
    ensures Kept(Descend(s, h, []).s)
  {
    var w, page := Repointed(At(s.mem, h.parent)[h.pi], s.avail[0]), At(s.mem, Target(s, h));
    var s1 := Redirected(s, h, w, page);
    SitePlaces(s, h);
    assert At(s.mem, h.parent)[h.pi].page;
    assert Redirects(s, h, w, page);
    forall t, j: Idx | Below(s1, t, j)
      ensures KeptAt(s1, t, j, {})
    {
      if t == h.parent && j == h.pi {
        MovedHere(s, h, w, page);
      } else {
        KeptElse(s, h, w, page, t, j);
      }
    }
  }

  lemma {:induction false} DescendKept(s: Spaces, h: Hop, rest: Path)
    requires Inv(s) && Site(s, h) && |h.path| + |rest| == 3 && KeptBut(s, Target(s, h), h.root)
    requires Descend(s, h, rest).Done?
    ensures Kept(Descend(s, h, rest).s)
    decreases |rest|
  {
    if rest == [] {
      LastKept(s, h);
    } else {
      var s1 := Own(s, h, rest[0]).s;
      OwnDone(s, h, rest[0]);
      OwnKept(s, h, rest[0]);
      DescendInto(s, h, rest);
      DescendKept(s1, NextHop(s1, h, rest[0]), rest[1..]);
    }
  }

  /** A data abort that is handled keeps the invariant, however many tables it copies. */
  lemma AbortKept(s: Spaces, root: FrameNo, va: Path)
    requires Inv(s) && Kept(s) && root in s.roots && |va| == 4 && Abort(s, root, va).Done?
    ensures Kept(Abort(s, root, va).s)
  {
    var h := Hop(root, [], root, va[0]);
    assert Sharers(s, [], root) == {root};
    forall t, j: Idx | Below(s, t, j)
      ensures KeptAt(s, t, j, if At(s.mem, t)[j].frame == Target(s, h) then {root} else {})
    {
      Weaker(s, t, j, Target(s, h), root);
    }
    DescendKept(s, h, va[1..]);
  }

  // ---------------------------------------------------------------- stores and exits

  lemma StoreKept(s: Spaces, root: FrameNo, va: Path, off: Idx, w: Word)
    requires Inv(s) && Kept(s) && root in s.roots && |va| == 4
    ensures Kept(Stored(s, root, va, off, w))
  {
    var s1 := Stored(s, root, va, off, w);
    if WalkTo(s.mem, root, va).Some? { WalkPlace(s.mem, s.place, root, va); }
    forall t, j: Idx | Below(s1, t, j)
      ensures KeptAt(s1, t, j, {})
    {
      StoredSharers(s, root, va, off, w, s.place[t], t);
      StoredSharers(s, root, va, off, w, s.place[t] + [j], At(s.mem, t)[j].frame);
      assert KeptAt(s, t, j, {});
    }
  }

  lemma StoredSharers(s: Spaces, root: FrameNo, va: Path, off: Idx, w: Word, q: Path, f: FrameNo)
    requires Shape(s) && root in s.roots && |va| == 4 && |q| <= 4
    ensures Sharers(Stored(s, root, va, off, w), q, f) == Sharers(s, q, f)
  {
    forall r | r in s.roots
      ensures WalkTo(Stored(s, root, va, off, w).mem, r, q) == WalkTo(s.mem, r, q)
    {
      StoredWalk(s, root, va, off, w, r, q);
    }
  }

  lemma ExitKept(s: Spaces, r: FrameNo, others: set<FrameNo>, avail: seq<FrameNo>)
    requires Inv(s) && Kept(s) && FreesOwn(s, r) && Exits(s, r, others, avail, Left(s, r, others, avail))
    ensures Kept(Left(s, r, others, avail))
  {
    var s1 := Left(s, r, others, avail);
    forall t, j: Idx | Below(s1, t, j)
      ensures KeptAt(s1, t, j, {})
    {
      LeftWord(s, r, others, avail, t, j);
      LeftSharers(s, r, others, avail, s.place[t], t);
      LeftSharers(s, r, others, avail, s.place[t] + [j], At(s.mem, t)[j].frame);
      OwnersGoOn(s, t, j);
      ClaimBut(Owners(s, t), TargetOwners(s, t, j), r);
      ClaimPlain(Owners(s, t) - {r}, TargetOwners(s, t, j) - {r});
      assert KeptAt(s, t, j, {});
    }
  }

  lemma EmptyKept(s: Spaces, r: FrameNo, page: Page)
    requires Inv(s) && Kept(s) && r !in s.mem && NothingIn(page)
    ensures Kept(WithEmpty(s, r, page))
  {
    var s1 := WithEmpty(s, r, page);
    forall t, j: Idx | Below(s1, t, j)
      ensures KeptAt(s1, t, j, {})
    {
      assert t != r && At(s1.mem, t) == At(s.mem, t);
      EmptySharers(s, r, page, s.place[t], t);
      EmptySharers(s, r, page, s.place[t] + [j], At(s.mem, t)[j].frame);
      assert KeptAt(s, t, j, {});
    }
  }

  lemma ExecKept(s: Spaces, r: FrameNo, avail: seq<FrameNo>)
    requires Inv(s) && Kept(s) && FreesOwn(s, r) && Empties(s, r, avail, Emptied(s, r, avail))
    ensures Kept(Emptied(s, r, avail))
  {
    ExitKept(s, r, {}, avail);
    ExecInv(s, r, avail);
    EmptyKept(Left(s, r, {}, avail), r, TornPage(At(s.mem, r), 512));
  }

  // ---------------------------------------------------------------- mappings

  lemma TakenKept(s: Spaces, page: Page)
    requires Inv(s) && Kept(s) && s.avail != []
    ensures Kept(Taken(s, page))
  {
    var s1 := Taken(s, page);
    assert s.avail[0] in s.avail;
    forall t, j: Idx | Below(s1, t, j)
      ensures KeptAt(s1, t, j, {})
    {
      assert At(s1.mem, t) == At(s.mem, t);
      TakenSharers(s, page, s.place[t], t);
      TakenSharers(s, page, s.place[t] + [j], At(s.mem, t)[j].frame);
      assert KeptAt(s, t, j, {});
    }
  }

  /** The new entry has one owner, and the others have those they had. */
  lemma AttachedKept(s: Spaces, t: FrameNo, i: Idx, w: Word, root: FrameNo)
    requires Attaches(s, t, i, w) && Kept(s) && OwnTable(s, root, t)
    ensures Kept(Attached(s, t, i, w))
  {
    var s1 := Attached(s, t, i, w);
    forall f, j: Idx | Below(s1, f, j)
      ensures KeptAt(s1, f, j, {})
    {
      AttachedWord(s, t, i, w, f, j);
      AttachedSharers(s, t, i, w, s1.place[f], f);
      AttachedSharers(s, t, i, w, s1.place[f] + [j], At(s1.mem, f)[j].frame);
      if f == t && j == i {
        ClaimPlain({root}, {root});
      } else {
        assert f != w.frame && Linked(s.place, s.place[f], j, At(s.mem, f)[j]);
        assert KeptAt(s, f, j, {});
      }
    }
  }

  lemma {:induction false} MapKept(s: Spaces, root: FrameNo, t: FrameNo, rest: Path, leaf: Word)
    requires Inv(s) && Kept(s) && MapsOwn(s, root, t, rest, leaf)
    ensures Kept(Placed(s, t, rest, leaf))
    decreases |rest|
  {
    MapsOn(s, root, t, rest, leaf);
    if |rest| == 1 {
      AttachedKept(s, t, rest[0], leaf, root);
    } else if At(s.mem, t)[rest[0]].valid {
      MapKept(s, root, At(s.mem, t)[rest[0]].frame, rest[1..], leaf);
    } else {
      MapsGraft(s, root, t, rest, leaf);
      TakenInv(s, Blank(512));
      TakenKept(s, Blank(512));
      GraftedIs(s, t, rest[0]);
      TakenSharers(s, Blank(512), s.place[t], t);
      AttachedKept(Taken(s, Blank(512)), t, rest[0], TableWord(s.avail[0]), root);
      MapKept(UserMap.Grafted(s, t, rest[0]), root, s.avail[0], rest[1..], leaf);
    }
  }

  // ---------------------------------------------------------------- whole runs

  /** The kernel, every guard read off the state before the call: a fork with room in the counters, a data abort that is
      handled, a store the tables allow, an exit or exec whose uncounted top-level entries lead to own tables, a mapping
      below own tables. */
  ghost predicate Step(s: Spaces, e: Event, s': Spaces) {
    match e
    case Fork(parent, child) => Forks(s, parent, s') && child == s.avail[0] && Room(s, parent)
    case Fault(root, va) => root in s.roots && |va| == 4 && Abort(s, root, va) == Done(s')
    case Store(root, va, off, w) => |va| == 4 && Writable(s, root, va) && s' == Stored(s, root, va, off, w)
    case Exit(root, others, avail) => Exits(s, root, others, avail, s') && OwnTops(s, root)
    case Exec(root, avail) => Empties(s, root, avail, s') && OwnTops(s, root)
    case Map(root, va, leaf, page) => Maps(s, root, va, leaf, page, s')
  }

  ghost predicate Run(s: Spaces, es: seq<Event>, s': Spaces)
    decreases |es|
  {
    if es == [] then s' == s
    else exists mid :: Step(s, es[0], mid) && Run(mid, es[1..], s')
  }

  lemma StepKept(s: Spaces, e: Event, s': Spaces)
    requires Inv(s) && Kept(s) && Step(s, e, s')
    ensures CowStep(s, e, s') && Kept(s')
  {
    match e
    case Fork(parent, child) =>
      RoomCountable(s, parent);
      var m :| SoftCopied(s, parent, m) && s' == Child(s, parent, m);
      ForkKept(s, parent, m);
    case Fault(root, va) =>
      AbortKept(s, root, va);
    case Store(root, va, off, w) =>
      StoreKept(s, root, va, off, w);
    case Exit(root, others, avail) =>
      ExitIff(s, root);
      ExitKept(s, root, others, avail);
    case Exec(root, avail) =>
      ExitIff(s, root);
      ExecKept(s, root, avail);
    case Map(root, va, leaf, page) =>
      TakenInv(s, page);
      TakenKept(s, page);
      MapKept(Taken(s, page), root, root, va, leaf);
  }

  /** Over every such run, processes coming and going, each of them reads what it would read if fork had copied every
      page, and at the end of the run an exit is safe exactly if the top-level entries say so. */
  lemma {:induction false} RunsKeep(s: Spaces, es: seq<Event>, s': Spaces)
    requires Inv(s) && Kept(s) && Run(s, es, s')
    ensures Inv(s') && Kept(s') && Views(s') == EagerRun(Views(s), es)
    ensures forall r :: r in s'.roots ==> (Dangles(s', r) <==> !OwnTops(s', r))
    decreases |es|
  {
    if es == [] {
      forall r | r in s'.roots
        ensures Dangles(s', r) <==> !OwnTops(s', r)
      {
        ExitIff(s', r);
      }
    } else {
      var mid :| Step(s, es[0], mid) && Run(mid, es[1..], s');
      StepKept(s, es[0], mid);
      StepSafe(s, es[0], mid);
      RunsKeep(mid, es[1..], s');
    }
  }

  /** One process, with whatever counters, is enough to start from. */
  lemma OneRootRuns(s: Spaces, es: seq<Event>, s': Spaces)
    requires Shape(s) && |s.roots| <= 1 && Run(s, es, s')
    ensures Inv(s') && Kept(s') && Views(s') == EagerRun(Views(s), es)
    ensures forall r :: r in s'.roots ==> (Dangles(s', r) <==> !OwnTops(s', r))
  {
    OneRootInv(s);
    OneRootKept(s);
    RunsKeep(s, es, s');
  }
}
