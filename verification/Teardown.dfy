/** Taking an address space apart (mem_table_teardown of mem.c), whoever else shares parts of it. */
module Teardown {
  import opened Options
  import opened Words
  import opened Paging
  import opened Trees
  import opened FrameMap
  import opened KernelPages

  // ---------------------------------------------------------------- what a teardown does to memory

  /** Frames of user memory that the kernel handed out and can reach. */
  ghost predicate Held(m: Mem, k: Tops, s: set<FrameNo>) {
    forall f :: f in s ==> LOW_FRAME <= f < HIGH_FRAME && Mapped(m, k, f) && !IsTable(m, k, f)
  }

  /** Exactly the frames `s` went back to the bitmap and out of the kernel's map, and its tables stay tables. */
  ghost predicate Released(m0: Mem, map0: seq<Bits>, k: Tops, s: set<FrameNo>, m: Mem, map_: seq<Bits>)
    requires |map0| == MAP_WORDS
  {
    && |map_| == MAP_WORDS
    && (forall g: nat :: InUse(map_, g) <==> InUse(map0, g) && g !in s)
    && (forall g: nat :: g < HIGH_FRAME ==> (Mapped(m, k, g) <==> Mapped(m0, k, g) && g !in s))
    && (forall g: nat :: IsTable(m, k, g) <==> IsTable(m0, k, g))
  }

  /** User memory: table `t` reads `p`, the tables `vis` were visited, everything else is as it was. */
  ghost predicate Written(m0: Mem, k: Tops, vis: set<FrameNo>, t: FrameNo, p: Page, m: Mem) {
    forall g: FrameNo :: !IsTable(m0, k, g) ==>
      At(m, g) == if g == t then p else if g in vis then TornPage(At(m0, g), 512) else At(m0, g)
  }

  ghost predicate Effect(m0: Mem, map0: seq<Bits>, k: Tops, gone: set<FrameNo>, vis: set<FrameNo>, t: FrameNo, p: Page,
                         m: Mem, map_: seq<Bits>)
    requires |map0| == MAP_WORDS
  {
    Released(m0, map0, k, gone, m, map_) && Written(m0, k, vis, t, p, m)
  }

  /** The first `n` entries of `t` were visited, with all that hangs below them. */
  ghost predicate Torn(m0: Mem, map0: seq<Bits>, k: Tops, t: FrameNo, d: nat, n: nat, m: Mem, map_: seq<Bits>)
    requires |map0| == MAP_WORDS && 1 <= d && n <= 512
  {
    Effect(m0, map0, k, GoneBelow(m0, t, d, n), VisitedBelow(m0, t, d, n), t, TornPage(At(m0, t), n), m, map_)
  }

  /** Writing to user memory is nothing to the kernel's map. */
  lemma UserWrite(m: Mem, m': Mem, map_: seq<Bits>, k: Tops)
    requires Kernel(m, map_, k) && forall g: FrameNo :: IsTable(m, k, g) ==> At(m', g) == At(m, g)
    ensures Kernel(m', map_, k)
    ensures forall g: nat :: g < HIGH_FRAME ==> (Mapped(m', k, g) <==> Mapped(m, k, g))
    ensures forall g: nat :: IsTable(m', k, g) <==> IsTable(m, k, g)
  {
    forall i: Idx | i < 496 && At(m, k.level2)[i].valid
      ensures At(m', At(m, k.level2)[i].frame) == At(m, At(m, k.level2)[i].frame)
    {
      assert IsTable(m, k, At(m, k.level2)[i].frame);
    }
    forall i: Idx
      ensures Entry2Ok(m', map_, k, i)
    {
      assert Entry2Ok(m, map_, k, i);
    }
    forall f: nat
      ensures MappedOk(m', map_, k, f)
      ensures f < HIGH_FRAME ==> (Mapped(m', k, f) <==> Mapped(m, k, f))
    {
      assert MappedOk(m, map_, k, f);
    }
  }

  lemma ReleasedTrans(m0: Mem, map0: seq<Bits>, k: Tops, s1: set<FrameNo>, m1: Mem, map1: seq<Bits>,
                      s2: set<FrameNo>, m2: Mem, map2: seq<Bits>)
    requires |map0| == MAP_WORDS && Released(m0, map0, k, s1, m1, map1) && Released(m1, map1, k, s2, m2, map2)
    ensures Released(m0, map0, k, s1 + s2, m2, map2)
  {
  }

  /** A table below `t` was taken apart. */
  lemma EffectSub(m0: Mem, map0: seq<Bits>, k: Tops, g1: set<FrameNo>, v1: set<FrameNo>, t: FrameNo, p: Page,
                  m: Mem, map_: seq<Bits>, g2: set<FrameNo>, v2: set<FrameNo>, c: FrameNo, m1: Mem, map1: seq<Bits>)
    requires |map0| == MAP_WORDS && Effect(m0, map0, k, g1, v1, t, p, m, map_)
    requires Effect(m, map_, k, g2, v2, c, TornPage(At(m, c), 512), m1, map1)
    requires c != t && c !in v1 && t !in v2 && v1 !! v2 && At(m, c) == At(m0, c)
    ensures Effect(m0, map0, k, g1 + g2, v1 + ({c} + v2), t, p, m1, map1)
  {
    ReleasedTrans(m0, map0, k, g1, m, map_, g2, m1, map1);
    forall g: FrameNo | !IsTable(m0, k, g)
      ensures At(m1, g) == if g == t then p else if g in v1 + ({c} + v2) then TornPage(At(m0, g), 512) else At(m0, g)
    {
    }
  }

  /** A frame was given back. */
  lemma EffectFree(m0: Mem, map0: seq<Bits>, k: Tops, g1: set<FrameNo>, vis: set<FrameNo>, t: FrameNo, p: Page,
                   m: Mem, map_: seq<Bits>, c: FrameNo, m1: Mem, map1: seq<Bits>)
    requires |map0| == MAP_WORDS && Effect(m0, map0, k, g1, vis, t, p, m, map_)
    requires Released(m, map_, k, {c}, m1, map1) && forall g: FrameNo :: !IsTable(m, k, g) ==> At(m1, g) == At(m, g)
    ensures Effect(m0, map0, k, g1 + {c}, vis, t, p, m1, map1)
  {
    ReleasedTrans(m0, map0, k, g1, m, map_, {c}, m1, map1);
  }

  /** A word of `t` was written. */
  lemma EffectWrite(m0: Mem, map0: seq<Bits>, k: Tops, gone: set<FrameNo>, vis: set<FrameNo>, t: FrameNo, p: Page,
                    m: Mem, map_: seq<Bits>, i: Idx, w: Word)
    requires |map0| == MAP_WORDS && Effect(m0, map0, k, gone, vis, t, p, m, map_) && !IsTable(m0, k, t)
    requires Kernel(m, map_, k)
    ensures Effect(m0, map0, k, gone, vis, t, p[i := w], Put(m, t, i, w), map_) && Kernel(Put(m, t, i, w), map_, k)
  {
    UserWrite(m, Put(m, t, i, w), map_, k);
  }

  // ---------------------------------------------------------------- coming to an entry

  /** A tree without aliases whose frames the kernel holds. */
  ghost predicate Sound(m: Mem, k: Tops, t: FrameNo, d: nat)
    requires 1 <= d
  {
    Tree(m, t, d) && Held(m, k, {t} + Below(m, t, d, 512))
  }

  /** What is known when the sweep of `t` comes to entry `i`. */
  lemma Visit(m0: Mem, map0: seq<Bits>, k: Tops, t: FrameNo, d: nat, i: Idx, m: Mem, map_: seq<Bits>)
    requires |map0| == MAP_WORDS && 1 <= d && Torn(m0, map0, k, t, d, i, m, map_)
    requires Sound(m0, k, t, d)
    ensures t < HIGH_FRAME && Mapped(m, k, t) && At(m, t)[i] == At(m0, t)[i]
  {
    assert t in {t} + Below(m0, t, d, 512);
    NotBelow(m0, t, d, i);
    WithinBelow(m0, t, d, i);
  }

  /** What is known if the entry is valid. */
  lemma VisitEntry(m0: Mem, map0: seq<Bits>, k: Tops, t: FrameNo, d: nat, i: Idx, m: Mem, map_: seq<Bits>)
    requires |map0| == MAP_WORDS && 1 <= d && Torn(m0, map0, k, t, d, i, m, map_)
    requires Tree(m0, t, d) && Held(m0, k, {t} + Below(m0, t, d, 512)) && At(m0, t)[i].valid
    ensures var c := At(m0, t)[i].frame; var e := {c} + Inside(m0, c, d);
            && c !in Inside(m0, c, d) && t !in e && Held(m, k, e) && Agree(m0, m, e)
            && e !! GoneBelow(m0, t, d, i) && e !! VisitedBelow(m0, t, d, i)
            && (d > 1 ==> At(m0, t)[i].page && Tree(m0, c, d - 1))
  {
    var c := At(m0, t)[i].frame;
    var e := {c} + Inside(m0, c, d);
    TreeStep(m0, t, d, i);
    WithinBelow(m0, t, d, i);
    forall f | f in e
      ensures LOW_FRAME <= f < HIGH_FRAME && Mapped(m0, k, f) && !IsTable(m0, k, f)
      ensures f !in GoneBelow(m0, t, d, i) && f !in VisitedBelow(m0, t, d, i) && f != t
    {
      assert f in {t} + Below(m0, t, d, 512);
    }
  }

  /** What is known of the table below it. */
  lemma VisitChild(m0: Mem, k: Tops, c: FrameNo, d: nat, m: Mem)
    requires 1 < d && Tree(m0, c, d - 1) && Agree(m0, m, {c} + Inside(m0, c, d)) && Held(m, k, {c} + Inside(m0, c, d))
    ensures Tree(m, c, d - 1) && SameUpTo(m0, m, c, d - 1, 512) && Held(m, k, {c} + Below(m, c, d - 1, 512))
    ensures At(m, c) == At(m0, c)
  {
    SameBelow(m0, m, c, d - 1, 512);
    SameTree(m0, m, c, d - 1);
    assert c in {c} + Inside(m0, c, d);
  }

  lemma Skip(m0: Mem, map0: seq<Bits>, k: Tops, t: FrameNo, d: nat, i: Idx, m: Mem, map_: seq<Bits>)
    requires |map0| == MAP_WORDS && 1 <= d && Torn(m0, map0, k, t, d, i, m, map_) && !At(m0, t)[i].valid
    ensures Torn(m0, map0, k, t, d, i + 1, m, map_)
  {
    assert TornPage(At(m0, t), i + 1) == TornPage(At(m0, t), i);
    assert GoneBelow(m0, t, d, i + 1) == GoneBelow(m0, t, d, i);
    assert VisitedBelow(m0, t, d, i + 1) == VisitedBelow(m0, t, d, i);
  }

  /** The sets after the tree below entry `i` was taken apart, but not the entry. */
  function GoneInside(m: Mem, t: FrameNo, d: nat, i: Idx): set<FrameNo>
    requires 1 <= d
  {
    GoneBelow(m, t, d, i) + if d == 1 then {} else GoneBelow(m, At(m, t)[i].frame, d - 1, 512)
  }

  function VisitedInside(m: Mem, t: FrameNo, d: nat, i: Idx): set<FrameNo>
    requires 1 <= d
  {
    VisitedBelow(m, t, d, i)
    + if d == 1 then {} else {At(m, t)[i].frame} + VisitedBelow(m, At(m, t)[i].frame, d - 1, 512)
  }

  /** The sweep below entry `i` is done, the entry itself is next. */
  ghost predicate AtEntry(m0: Mem, map0: seq<Bits>, k: Tops, t: FrameNo, d: nat, i: Idx, m: Mem, map_: seq<Bits>)
    requires |map0| == MAP_WORDS && 1 <= d
  {
    Effect(m0, map0, k, GoneInside(m0, t, d, i), VisitedInside(m0, t, d, i), t, TornPage(At(m0, t), i), m, map_)
  }

  lemma ChildDone(m0: Mem, map0: seq<Bits>, k: Tops, t: FrameNo, d: nat, i: Idx, m: Mem, map_: seq<Bits>,
                  m1: Mem, map1: seq<Bits>)
    requires |map0| == MAP_WORDS && 1 < d && Torn(m0, map0, k, t, d, i, m, map_)
    requires Tree(m0, t, d) && At(m0, t)[i].valid && |map_| == MAP_WORDS
    requires var c := At(m0, t)[i].frame;
             && SameUpTo(m0, m, c, d - 1, 512) && At(m, c) == At(m0, c) && Torn(m, map_, k, c, d - 1, 512, m1, map1)
    ensures AtEntry(m0, map0, k, t, d, i, m1, map1)
  {
    var c := At(m0, t)[i].frame;
    TreeStep(m0, t, d, i);
    WithinBelow(m0, t, d, i);
    WithinBelow(m0, c, d - 1, 512);
    EffectSub(m0, map0, k, GoneBelow(m0, t, d, i), VisitedBelow(m0, t, d, i), t, TornPage(At(m0, t), i), m, map_,
              GoneBelow(m, c, d - 1, 512), VisitedBelow(m, c, d - 1, 512), c, m1, map1);
  }

  lemma NoChild(m0: Mem, map0: seq<Bits>, k: Tops, t: FrameNo, i: Idx, m: Mem, map_: seq<Bits>)
    requires |map0| == MAP_WORDS && Torn(m0, map0, k, t, 1, i, m, map_)
    ensures AtEntry(m0, map0, k, t, 1, i, m, map_)
  {
    assert GoneInside(m0, t, 1, i) == GoneBelow(m0, t, 1, i) && VisitedInside(m0, t, 1, i) == VisitedBelow(m0, t, 1, i);
  }

  /** The page an entry points to is still held when its turn comes. */
  lemma StillHeld(m0: Mem, map0: seq<Bits>, k: Tops, t: FrameNo, d: nat, i: Idx, m: Mem, map_: seq<Bits>)
    requires |map0| == MAP_WORDS && 1 <= d && AtEntry(m0, map0, k, t, d, i, m, map_)
    requires Tree(m0, t, d) && At(m0, t)[i].valid && Held(m0, k, {t} + Below(m0, t, d, 512))
    ensures Ready(m0, map0, k, t, d, i, m, map_)
  {
    var c := At(m0, t)[i].frame;
    TreeStep(m0, t, d, i);
    WithinBelow(m0, t, d, i);
    if d > 1 { WithinBelow(m0, c, d - 1, 512); }
    assert c in {t} + Below(m0, t, d, 512) && t in {t} + Below(m0, t, d, 512);
    assert c !in GoneInside(m0, t, d, i) && t !in GoneInside(m0, t, d, i);
  }

  /** The entry was visited, and its frame given back. */
  lemma EntryGone(m0: Mem, map0: seq<Bits>, k: Tops, t: FrameNo, d: nat, i: Idx, m: Mem, map_: seq<Bits>)
    requires |map0| == MAP_WORDS && 1 <= d && At(m0, t)[i].valid && At(m0, t)[i].refs == 0
    requires Effect(m0, map0, k, GoneInside(m0, t, d, i) + {At(m0, t)[i].frame}, VisitedInside(m0, t, d, i), t,
                    TornPage(At(m0, t), i)[i := ZERO], m, map_)
    ensures Torn(m0, map0, k, t, d, i + 1, m, map_)
  {
    assert GoneInside(m0, t, d, i) + {At(m0, t)[i].frame} == GoneBelow(m0, t, d, i + 1);
    assert VisitedInside(m0, t, d, i) == VisitedBelow(m0, t, d, i + 1);
  }

  /** The entry was visited, and its counter lowered. */
  lemma EntryKept(m0: Mem, map0: seq<Bits>, k: Tops, t: FrameNo, d: nat, i: Idx, m: Mem, map_: seq<Bits>)
    requires |map0| == MAP_WORDS && 1 <= d && At(m0, t)[i].valid && At(m0, t)[i].refs > 0
    requires Effect(m0, map0, k, GoneInside(m0, t, d, i), VisitedInside(m0, t, d, i), t,
                    TornPage(At(m0, t), i)[i := Freed(At(m0, t)[i])], m, map_)
    ensures Torn(m0, map0, k, t, d, i + 1, m, map_)
  {
    assert GoneInside(m0, t, d, i) == GoneBelow(m0, t, d, i + 1);
    assert VisitedInside(m0, t, d, i) == VisitedBelow(m0, t, d, i + 1);
  }

  // ---------------------------------------------------------------- the code

  /** A table at `level` has height 4 less `level`: a last-level table has height 1. */
  predicate Height(d: nat, level: nat) {
    3 < d + level < 5
  }

  /** Reads entry `i` of a table through the kernel's linear map. */
  method Read(km: KernelMemory, t: FrameNo, i: Idx) returns (w: Word)
    requires t < HIGH_FRAME && Mapped(km.mem, km.tops, t)
    ensures w == At(km.mem, t)[i]
  {
    w := At(km.mem, t)[i];
  }

  /** `mmu_mark_freed` */
  method MarkFreed(km: KernelMemory, t: FrameNo, i: Idx) returns (ref: RefCount)
    requires t < HIGH_FRAME && Mapped(km.mem, km.tops, t)
    modifies km`mem
    ensures ref == old(At(km.mem, t)[i]).refs
    ensures km.mem == if ref > 0 then Put(old(km.mem), t, i, Freed(old(At(km.mem, t)[i]))) else old(km.mem)
  {
    ref := At(km.mem, t)[i].refs;
    if ref > 0 {
      km.mem := Put(km.mem, t, i, Freed(At(km.mem, t)[i]));
    }
  }

  /** `mem_kernel_free_page` of a page of user memory that is held. */
  method FreeFrame(km: KernelMemory, c: FrameNo) returns (err: Err)
    requires km.Valid() && Held(km.mem, km.tops, {c})
    modifies km`mem, km.frames.words
    ensures err == ErrOk && km.Valid() && Released(old(km.mem), old(km.Map()), km.tops, {c}, km.mem, km.Map())
    ensures forall g: FrameNo :: !IsTable(old(km.mem), km.tops, g) ==> At(km.mem, g) == At(old(km.mem), g)
  {
    assert c in {c};
    err := km.FreePage(c);
  }

  /** The entry and its table, before entry `i` is freed. */
  ghost predicate Ready(m0: Mem, map0: seq<Bits>, k: Tops, t: FrameNo, d: nat, i: Idx, m: Mem, map_: seq<Bits>)
    requires |map0| == MAP_WORDS && 1 <= d
  {
    && AtEntry(m0, map0, k, t, d, i, m, map_)
    && Held(m, k, {At(m0, t)[i].frame}) && Held(m, k, {t}) && !IsTable(m0, k, t) && At(m, t)[i] == At(m0, t)[i]
  }

  /** A shared entry: its counter is lowered. */
  lemma Kept(m0: Mem, map0: seq<Bits>, k: Tops, t: FrameNo, d: nat, i: Idx, m: Mem, map_: seq<Bits>)
    requires |map0| == MAP_WORDS && 1 <= d && Ready(m0, map0, k, t, d, i, m, map_) && Kernel(m, map_, k)
    requires At(m0, t)[i].valid && At(m0, t)[i].refs > 0
    ensures var m' := Put(m, t, i, Freed(At(m0, t)[i]));
            Torn(m0, map0, k, t, d, i + 1, m', map_) && Kernel(m', map_, k)
  {
    var gone, vis := GoneInside(m0, t, d, i), VisitedInside(m0, t, d, i);
    EffectWrite(m0, map0, k, gone, vis, t, TornPage(At(m0, t), i), m, map_, i, Freed(At(m0, t)[i]));
    EntryKept(m0, map0, k, t, d, i, Put(m, t, i, Freed(At(m0, t)[i])), map_);
  }

  /** An entry with counter zero: the frame was given back, and the entry is cleared. */
  lemma Cleared(m0: Mem, map0: seq<Bits>, k: Tops, t: FrameNo, d: nat, i: Idx, m: Mem, map_: seq<Bits>, m1: Mem,
                map1: seq<Bits>)
    requires |map0| == MAP_WORDS && 1 <= d && Ready(m0, map0, k, t, d, i, m, map_) && Kernel(m1, map1, k)
    requires At(m0, t)[i].valid && At(m0, t)[i].refs == 0
    requires Released(m, map_, k, {At(m0, t)[i].frame}, m1, map1)
    requires forall g: FrameNo :: !IsTable(m, k, g) ==> At(m1, g) == At(m, g)
    ensures Torn(m0, map0, k, t, d, i + 1, Put(m1, t, i, ZERO), map1) && Kernel(Put(m1, t, i, ZERO), map1, k)
  {
    var gone, vis, p, c := GoneInside(m0, t, d, i), VisitedInside(m0, t, d, i), TornPage(At(m0, t), i), At(m0, t)[i].frame;
    EffectFree(m0, map0, k, gone, vis, t, p, m, map_, c, m1, map1);
    EffectWrite(m0, map0, k, gone + {c}, vis, t, p, m1, map1, i, ZERO);
    EntryGone(m0, map0, k, t, d, i, Put(m1, t, i, ZERO), map1);
  }

  /** What follows the sweep below entry `i`: for a sole owner the page the entry points to is given back and the entry
      is cleared. */
  method FreeEntry(km: KernelMemory, t: FrameNo, i: Idx, ghost d: nat, ghost m0: Mem, ghost map0: seq<Bits>)
    returns (err: Err)
    requires km.Valid() && |map0| == MAP_WORDS && 1 <= d && At(m0, t)[i].valid
    requires Ready(m0, map0, km.tops, t, d, i, km.mem, km.Map())
    modifies km`mem, km.frames.words
    ensures err == ErrOk && km.Valid() && Torn(m0, map0, km.tops, t, d, i + 1, km.mem, km.Map())
  {
    assert t in {t};
    ghost var m, map_ := km.mem, km.Map();
    var ref := MarkFreed(km, t, i);
    if ref == 0 {
      var w := Read(km, t, i);
      err := FreeFrame(km, w.frame);
      if err != ErrOk { return; }
      Cleared(m0, map0, km.tops, t, d, i, m, map_, km.mem, km.Map());
      km.mem := Put(km.mem, t, i, ZERO);
    } else {
      Kept(m0, map0, km.tops, t, d, i, m, map_);
    }
    return ErrOk;
  }

  lemma NothingTorn(m0: Mem, map0: seq<Bits>, k: Tops, t: FrameNo, d: nat)
    requires |map0| == MAP_WORDS && 1 <= d
    ensures Torn(m0, map0, k, t, d, 0, m0, map0)
  {
  }

  /** Going down at entry `i`. */
  lemma Down(m0: Mem, map0: seq<Bits>, k: Tops, t: FrameNo, d: nat, i: Idx, m: Mem, map_: seq<Bits>)
    requires |map0| == MAP_WORDS && 1 < d && Torn(m0, map0, k, t, d, i, m, map_)
    requires Sound(m0, k, t, d) && At(m0, t)[i].valid
    ensures At(m0, t)[i].page && Sound(m, k, At(m0, t)[i].frame, d - 1)
  {
    VisitEntry(m0, map0, k, t, d, i, m, map_);
    VisitChild(m0, k, At(m0, t)[i].frame, d, m);
  }

  /** Coming back from below entry `i`. */
  lemma Up(m0: Mem, map0: seq<Bits>, k: Tops, t: FrameNo, d: nat, i: Idx, m: Mem, map_: seq<Bits>, m1: Mem,
           map1: seq<Bits>)
    requires |map0| == MAP_WORDS && 1 < d && Torn(m0, map0, k, t, d, i, m, map_) && |map_| == MAP_WORDS
    requires Sound(m0, k, t, d) && At(m0, t)[i].valid && Torn(m, map_, k, At(m0, t)[i].frame, d - 1, 512, m1, map1)
    ensures Ready(m0, map0, k, t, d, i, m1, map1)
  {
    VisitEntry(m0, map0, k, t, d, i, m, map_);
    VisitChild(m0, k, At(m0, t)[i].frame, d, m);
    ChildDone(m0, map0, k, t, d, i, m, map_, m1, map1);
    StillHeld(m0, map0, k, t, d, i, m1, map1);
  }

  /** A last-level entry has nothing below it that has to go first. */
  lemma Here(m0: Mem, map0: seq<Bits>, k: Tops, t: FrameNo, d: nat, i: Idx, m: Mem, map_: seq<Bits>)
    requires |map0| == MAP_WORDS && d == 1 && Torn(m0, map0, k, t, d, i, m, map_)
    requires Sound(m0, k, t, d) && At(m0, t)[i].valid
    ensures Ready(m0, map0, k, t, d, i, m, map_)
  {
    NoChild(m0, map0, k, t, i, m, map_);
    StillHeld(m0, map0, k, t, d, i, m, map_);
  }

  method TearLevel3(km: KernelMemory, t: FrameNo, ghost d: nat) returns (err: Err)
    requires km.Valid() && Height(d, 3) && Sound(km.mem, km.tops, t, d)
    modifies km`mem, km.frames.words
    ensures err == ErrOk && km.Valid() && Torn(old(km.mem), old(km.Map()), km.tops, t, d, 512, km.mem, km.Map())
  {
    ghost var m0, map0 := km.mem, km.Map();
    NothingTorn(m0, map0, km.tops, t, d);
    for i := 0 to 512
      invariant km.Valid() && Torn(m0, map0, km.tops, t, d, i, km.mem, km.Map())
    {
      ghost var m, map_ := km.mem, km.Map();
      Visit(m0, map0, km.tops, t, d, i, m, map_);
      var w := Read(km, t, i);
      if !w.valid {
        Skip(m0, map0, km.tops, t, d, i, m, map_);
        continue;
      }
      Here(m0, map0, km.tops, t, d, i, m, map_);
      err := FreeEntry(km, t, i, d, m0, map0);
      if err != ErrOk { return; }
    }
    return ErrOk;
  }

  method TearLevel2(km: KernelMemory, t: FrameNo, ghost d: nat) returns (err: Err)
    requires km.Valid() && Height(d, 2) && Sound(km.mem, km.tops, t, d)
    modifies km`mem, km.frames.words
    ensures err == ErrOk && km.Valid() && Torn(old(km.mem), old(km.Map()), km.tops, t, d, 512, km.mem, km.Map())
  {
    ghost var m0, map0 := km.mem, km.Map();
    NothingTorn(m0, map0, km.tops, t, d);
    for i := 0 to 512
      invariant km.Valid() && Torn(m0, map0, km.tops, t, d, i, km.mem, km.Map())
    {
      ghost var m, map_ := km.mem, km.Map();
      Visit(m0, map0, km.tops, t, d, i, m, map_);
      var w := Read(km, t, i);
      if !w.valid {
        Skip(m0, map0, km.tops, t, d, i, m, map_);
        continue;
      }
      Down(m0, map0, km.tops, t, d, i, m, map_);
      if !w.page {
        assert false;
      }
      err := TearLevel3(km, w.frame, d - 1);
      if err != ErrOk { return; }
      Up(m0, map0, km.tops, t, d, i, m, map_, km.mem, km.Map());
      err := FreeEntry(km, t, i, d, m0, map0);
      if err != ErrOk { return; }
    }
    return ErrOk;
  }

  method TearLevel1(km: KernelMemory, t: FrameNo, ghost d: nat) returns (err: Err)
    requires km.Valid() && Height(d, 1) && Sound(km.mem, km.tops, t, d)
    modifies km`mem, km.frames.words
    ensures err == ErrOk && km.Valid() && Torn(old(km.mem), old(km.Map()), km.tops, t, d, 512, km.mem, km.Map())
  {
    ghost var m0, map0 := km.mem, km.Map();
    NothingTorn(m0, map0, km.tops, t, d);
    for i := 0 to 512
      invariant km.Valid() && Torn(m0, map0, km.tops, t, d, i, km.mem, km.Map())
    {
      ghost var m, map_ := km.mem, km.Map();
      Visit(m0, map0, km.tops, t, d, i, m, map_);
      var w := Read(km, t, i);
      if !w.valid {
        Skip(m0, map0, km.tops, t, d, i, m, map_);
        continue;
      }
      Down(m0, map0, km.tops, t, d, i, m, map_);
      if !w.page {
        assert false;
      }
      err := TearLevel2(km, w.frame, d - 1);
      if err != ErrOk { return; }
      Up(m0, map0, km.tops, t, d, i, m, map_, km.mem, km.Map());
      err := FreeEntry(km, t, i, d, m0, map0);
      if err != ErrOk { return; }
    }
    return ErrOk;
  }

  /** `mem_table_teardown`: the words of every table of the tree are visited once, exactly the frames `GoneBelow` go
      back to the bitmap, and other tables and pages are not touched, although other address spaces may share those of
      the tree. */
  method Teardown(km: KernelMemory, t: FrameNo, ghost d: nat) returns (err: Err)
    requires km.Valid() && Height(d, 0) && Sound(km.mem, km.tops, t, d)
    modifies km`mem, km.frames.words
    ensures err == ErrOk && km.Valid() && Torn(old(km.mem), old(km.Map()), km.tops, t, d, 512, km.mem, km.Map())
  {
    ghost var m0, map0 := km.mem, km.Map();
    NothingTorn(m0, map0, km.tops, t, d);
    for i := 0 to 512
      invariant km.Valid() && Torn(m0, map0, km.tops, t, d, i, km.mem, km.Map())
    {
      ghost var m, map_ := km.mem, km.Map();
      Visit(m0, map0, km.tops, t, d, i, m, map_);
      var w := Read(km, t, i);
      if !w.valid {
        Skip(m0, map0, km.tops, t, d, i, m, map_);
        continue;
      }
      Down(m0, map0, km.tops, t, d, i, m, map_);
      err := TearLevel1(km, w.frame, d - 1);
      if err != ErrOk { return; }
      Up(m0, map0, km.tops, t, d, i, m, map_, km.mem, km.Map());
      err := FreeEntry(km, t, i, d, m0, map0);
      if err != ErrOk { return; }
    }
    return ErrOk;
  }

  /** A frame of user memory that is still held once `gone` is given back. */
  ghost predicate Left(m0: Mem, k: Tops, gone: set<FrameNo>, c: FrameNo) {
    c !in gone && LOW_FRAME <= c < HIGH_FRAME && Mapped(m0, k, c) && !IsTable(m0, k, c)
  }

  lemma HeldOn(m0: Mem, map0: seq<Bits>, k: Tops, gone: set<FrameNo>, vis: set<FrameNo>, t: FrameNo, p: Page, m: Mem,
               map_: seq<Bits>, c: FrameNo)
    requires |map0| == MAP_WORDS && Effect(m0, map0, k, gone, vis, t, p, m, map_)
    requires Left(m0, k, gone, c)
    ensures Held(m, k, {c})
  {
  }

  /** The table is not among the frames its own sweep gives back. */
  lemma RootStays(m: Mem, t: FrameNo, d: nat)
    requires 1 <= d && Tree(m, t, d)
    ensures t !in GoneBelow(m, t, d, 512)
  {
    NotBelow(m, t, d, 512);
    WithinBelow(m, t, d, 512);
  }

  /** One more page of the process goes. */
  method FreeOther(km: KernelMemory, c: FrameNo, ghost m0: Mem, ghost map0: seq<Bits>, ghost gone: set<FrameNo>,
                   ghost vis: set<FrameNo>, ghost t: FrameNo, ghost p: Page) returns (err: Err)
    requires km.Valid() && |map0| == MAP_WORDS && Effect(m0, map0, km.tops, gone, vis, t, p, km.mem, km.Map())
    requires Left(m0, km.tops, gone, c)
    modifies km`mem, km.frames.words
    ensures err == ErrOk && km.Valid() && Effect(m0, map0, km.tops, gone + {c}, vis, t, p, km.mem, km.Map())
  {
    ghost var m, map_ := km.mem, km.Map();
    HeldOn(m0, map0, km.tops, gone, vis, t, p, m, map_, c);
    err := FreeFrame(km, c);
    EffectFree(m0, map0, km.tops, gone, vis, t, p, m, map_, c, km.mem, km.Map());
  }

  lemma ExitApart(m: Mem, k: Tops, t: FrameNo, stack: FrameNo, task: FrameNo, d: nat)
    requires 1 <= d && Sound(m, k, t, d) && Held(m, k, {stack, task})
    requires stack != task && stack !in {t} + Below(m, t, d, 512) && task !in {t} + Below(m, t, d, 512)
    ensures var gone := GoneBelow(m, t, d, 512);
            Left(m, k, gone, t) && Left(m, k, gone + {t}, stack) && Left(m, k, gone + {t} + {stack}, task)
  {
    RootStays(m, t, d);
    WithinBelow(m, t, d, 512);
    assert t in {t} + Below(m, t, d, 512) && stack in {stack, task} && task in {stack, task};
  }

  /** What `task_exit` gives back: what the teardown of its tables does, the top-level table, the kernel stack and the
      task struct. */
  method ExitMemory(km: KernelMemory, t: FrameNo, stack: FrameNo, task: FrameNo, ghost d: nat) returns (err: Err)
    requires km.Valid() && Height(d, 0) && Sound(km.mem, km.tops, t, d) && Held(km.mem, km.tops, {stack, task})
    requires stack != task && stack !in {t} + Below(km.mem, t, d, 512) && task !in {t} + Below(km.mem, t, d, 512)
    modifies km`mem, km.frames.words
    ensures err == ErrOk && km.Valid()
    ensures Effect(old(km.mem), old(km.Map()), km.tops, GoneBelow(old(km.mem), t, d, 512) + {t} + {stack} + {task},
                   VisitedBelow(old(km.mem), t, d, 512), t, TornPage(At(old(km.mem), t), 512), km.mem, km.Map())
  {
    ghost var m0, map0 := km.mem, km.Map();
    ghost var gone, vis, p := GoneBelow(m0, t, d, 512), VisitedBelow(m0, t, d, 512), TornPage(At(m0, t), 512);
    ExitApart(m0, km.tops, t, stack, task, d);
    err := Teardown(km, t, d);
    if err != ErrOk { return; }
    err := FreeOther(km, t, m0, map0, gone, vis, t, p);
    if err != ErrOk { return; }
    err := FreeOther(km, stack, m0, map0, gone + {t}, vis, t, p);
    if err != ErrOk { return; }
    err := FreeOther(km, task, m0, map0, gone + {t} + {stack}, vis, t, p);
  }

  /** The teardown of an address space that shares nothing: exactly its pages and tables go back to the bitmap, each of
      them once, and the top-level table ends up empty. */
  lemma SoleTorn(m0: Mem, map0: seq<Bits>, k: Tops, t: FrameNo, d: nat, m: Mem, map_: seq<Bits>)
    requires |map0| == MAP_WORDS && Height(d, 0) && Sole(m0, t, d) && Torn(m0, map0, k, t, d, 512, m, map_)
    requires !IsTable(m0, k, t)
    ensures forall g: nat :: InUse(map_, g) <==> InUse(map0, g) && g !in Below(m0, t, d, 512)
    ensures forall i: Idx :: !At(m, t)[i].valid
  {
    SoleGone(m0, t, d, 512);
    SolePage(m0, t, d);
  }
}
