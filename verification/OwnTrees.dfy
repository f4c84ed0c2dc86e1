/** Trees that were built by mapping pages and never forked are taken apart completely. */
module OwnTrees {
  import opened Options
  import opened Words
  import opened Paging
  import opened Cow
  import opened UserMap
  import opened Trees
  import opened TornSpaces
  import Teardown

  /** No entry of any table counts a second owner. */
  ghost predicate ZeroCounters(s: Spaces) {
    forall f, i: Idx :: f in s.place && |s.place[f]| <= 3 && At(s.mem, f)[i].valid ==> At(s.mem, f)[i].refs == 0
  }

  /** A tree without counted sharing. */
  lemma {:induction false} ShapeSole(s: Spaces, t: FrameNo, d: nat)
    requires Shape(s) && ZeroCounters(s) && t in s.place && 1 <= d == 4 - |s.place[t]|
    ensures Sole(s.mem, t, d)
    decreases d
  {
    if d > 1 {
      forall i: Idx | At(s.mem, t)[i].valid
        ensures Sole(s.mem, At(s.mem, t)[i].frame, d - 1)
      {
        assert Linked(s.place, s.place[t], i, At(s.mem, t)[i]);
        ShapeSole(s, At(s.mem, t)[i].frame, d - 1);
      }
    }
  }

  /** Mapping a page counts no owners. */
  lemma {:induction false} MapKeepsZero(s: Spaces, t: FrameNo, rest: Path, leaf: Word)
    requires TreeShape(s) && ZeroCounters(s) && t in s.place && rest != [] && |s.place[t]| + |rest| == 4
    requires leaf.valid && leaf.page && leaf.refs == 0 && MapBelow(s, t, rest, leaf).Mapped?
    ensures ZeroCounters(MapBelow(s, t, rest, leaf).s)
    decreases |rest|
  {
    var w := At(s.mem, t)[rest[0]];
    if |rest| == 1 {
      PutZero(s, t, rest[0], leaf);
    } else {
      if w.valid {
        assert Linked(s.place, s.place[t], rest[0], w);
        MapKeepsZero(s, w.frame, rest[1..], leaf);
      } else {
        GraftedShape(s, t, rest[0]);
        GraftedZero(s, t, rest[0]);
        MapKeepsZero(Grafted(s, t, rest[0]), s.avail[0], rest[1..], leaf);
      }
    }
  }

  lemma PutZero(s: Spaces, t: FrameNo, i: Idx, w: Word)
    requires ZeroCounters(s) && w.refs == 0
    ensures ZeroCounters(s.(mem := Put(s.mem, t, i, w)))
  {
    var s' := s.(mem := Put(s.mem, t, i, w));
    forall f, j: Idx | f in s'.place && |s'.place[f]| <= 3 && At(s'.mem, f)[j].valid
      ensures At(s'.mem, f)[j].refs == 0
    {
      assert (f == t && i == j) || At(s'.mem, f)[j] == At(s.mem, f)[j];
    }
  }

  lemma GraftedZero(s: Spaces, t: FrameNo, i: Idx)
    requires TreeShape(s) && ZeroCounters(s) && t in s.place && |s.place[t]| <= 2 && s.avail != []
    ensures ZeroCounters(Grafted(s, t, i))
  {
    var s' := Grafted(s, t, i);
    forall f, j: Idx | f in s'.place && |s'.place[f]| <= 3 && At(s'.mem, f)[j].valid
      ensures At(s'.mem, f)[j].refs == 0
    {
      if f in s.place { assert At(s.mem, f)[j].valid ==> At(s.mem, f)[j].refs == 0; }
    }
  }

  /** So an address space built by mapping fresh pages one after the other is taken apart completely: a step of the
      building. */
  lemma MapKeepsOwn(s: Spaces, root: FrameNo, va: Path, leaf: Word, d: nat)
    requires Shape(s) && ZeroCounters(s) && root in s.roots && |va| == 4 && Teardown.Height(d, 0)
    requires leaf.valid && leaf.page && leaf.refs == 0 && leaf.frame in s.mem && leaf.frame !in s.place
    requires MapBelow(s, root, va, leaf).Mapped?
    ensures var out := MapBelow(s, root, va, leaf).s; var s' := out.(place := out.place[leaf.frame := va]);
            Shape(s') && ZeroCounters(s') && Tree(s'.mem, root, d) && Sole(s'.mem, root, d)
  {
    var out := MapBelow(s, root, va, leaf).s;
    var s' := out.(place := out.place[leaf.frame := va]);
    MapOwnPage(s, root, va, leaf);
    assert s.place[root] == [];
    MapKeepsZero(s, root, va, leaf);
    MapKeepsRoot(s, root, va, leaf);
    ShapeTree(s', root, d);
    ShapeSole(s', root, d);
  }

  lemma {:induction false} MapKeepsRoot(s: Spaces, t: FrameNo, rest: Path, leaf: Word)
    requires t in s.place && rest != [] && MapBelow(s, t, rest, leaf).Mapped?
    ensures MapBelow(s, t, rest, leaf).s.roots == s.roots
    decreases |rest|
  {
    var w := At(s.mem, t)[rest[0]];
    if |rest| > 1 {
      if w.valid {
        MapKeepsRoot(s, w.frame, rest[1..], leaf);
      } else {
        MapKeepsRoot(Grafted(s, t, rest[0]), s.avail[0], rest[1..], leaf);
      }
    }
  }
}
