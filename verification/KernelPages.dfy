/** The kernel's own pages (mem_kernel_alloc_page and mem_kernel_free_page of mem.c).  Every page frame the
    kernel hands out is mapped at a fixed place of the kernel's address space, its linear address, and the
    bitmap of frames must never say that a mapped frame is free. */
module KernelPages {
  import opened Options
  import opened Words
  import opened Paging
  import opened FrameMap
  import opened SelfMap
  import B = SelfMapBits

  /** The kernel's top-level table and the level-1 and level-2 tables behind its slot 0. */
  datatype Tops = Tops(level0: FrameNo, level1: FrameNo, level2: FrameNo)

  /** Table indices of the linear address of frame `f` at levels 2 and 3; at levels 0 and 1 they are 0. */
  function Hi(f: nat): (i: Idx)
    ensures f < HIGH_FRAME ==> i < 496
  {
    if f < HIGH_FRAME then f / 512 else 0
  }

  function Lo(f: nat): Idx { f % 512 }

  lemma HiLo(f: nat, g: nat)
    requires f < HIGH_FRAME && g < HIGH_FRAME && Hi(f) == Hi(g) && Lo(f) == Lo(g)
    ensures f == g
  {}

  /** Is frame `f` mapped at its linear address? */
  predicate Mapped(m: Mem, k: Tops, f: nat) {
    var e := At(m, k.level2)[Hi(f)];
    e.valid && At(m, e.frame)[Lo(f)].valid
  }

  /** The tables of the kernel's linear map. */
  predicate IsTable(m: Mem, k: Tops, f: nat) {
    f == k.level0 || f == k.level1 || f == k.level2
    || exists i: Idx :: i < 496 && At(m, k.level2)[i].valid && At(m, k.level2)[i].frame == f
  }

  predicate Links(m: Mem, t: FrameNo, i: Idx, f: FrameNo) {
    var w := At(m, t)[i];
    w.valid && w.page && w.frame == f
  }

  /** The tables on top are in place, and slot 511 of the first leads back to it. */
  predicate TopsOk(m: Mem, map_: seq<Bits>, k: Tops)
    requires |map_| == MAP_WORDS
  {
    && Links(m, k.level0, 511, k.level0) && Links(m, k.level0, 0, k.level1) && Links(m, k.level1, 0, k.level2)
    && k.level0 != k.level1 && k.level0 != k.level2 && k.level1 != k.level2
    && InUse(map_, k.level0) && InUse(map_, k.level1) && InUse(map_, k.level2)
  }

  /** Entry `i` of the level-2 table links a table of its own. */
  predicate Entry2Ok(m: Mem, map_: seq<Bits>, k: Tops, i: Idx)
    requires |map_| == MAP_WORDS
  {
    var e := At(m, k.level2)[i];
    i < 496 && e.valid ==>
      && e.page && InUse(map_, e.frame) && e.frame != k.level0 && e.frame != k.level1 && e.frame != k.level2
      && forall j: Idx :: j < 496 && j != i && At(m, k.level2)[j].valid ==> At(m, k.level2)[j].frame != e.frame
  }

  /** What is mapped at the linear address of a frame is that frame, and it is in use. */
  predicate MappedOk(m: Mem, map_: seq<Bits>, k: Tops, f: nat)
    requires |map_| == MAP_WORDS
  {
    LOW_FRAME <= f < HIGH_FRAME && Mapped(m, k, f) ==>
      InUse(map_, f) && Links(m, At(m, k.level2)[Hi(f)].frame, Lo(f), f)
  }

  ghost predicate Kernel(m: Mem, map_: seq<Bits>, k: Tops) {
    && |map_| == MAP_WORDS && TopsOk(m, map_, k)
    && (forall i: Idx :: Entry2Ok(m, map_, k, i))
    && (forall f: nat :: MappedOk(m, map_, k, f))
  }

  ghost predicate Free(map_: seq<Bits>, f: nat)
    requires |map_| == MAP_WORDS
  {
    LOW_FRAME <= f < LOW_FRAME + MAP_PAGES && !InUse(map_, f)
  }

  /** There is a frame for a page, and, if its linear address needs a new table, one more. */
  ghost predicate Room(m: Mem, map_: seq<Bits>, k: Tops)
    requires |map_| == MAP_WORDS
  {
    exists f: nat :: Least(map_, f)
      && (At(m, k.level2)[Hi(f)].valid || exists g: nat :: g != f && Free(map_, g))
  }

  /** The frame `pmm_get` finds. */
  ghost predicate Least(map_: seq<Bits>, f: nat)
    requires |map_| == MAP_WORDS
  {
    Free(map_, f) && forall g: nat :: LOW_FRAME <= g < f ==> InUse(map_, g)
  }

  // ---------------------------------------------------------------- single changes

  ghost predicate MoreUsed(map_: seq<Bits>, map': seq<Bits>)
    requires |map_| == MAP_WORDS && |map'| == MAP_WORDS
  {
    forall f: nat :: InUse(map_, f) ==> InUse(map', f)
  }

  lemma MoreUsedKernel(m: Mem, map_: seq<Bits>, map': seq<Bits>, k: Tops)
    requires Kernel(m, map_, k) && |map'| == MAP_WORDS && MoreUsed(map_, map')
    ensures Kernel(m, map', k)
  {
    assert forall i: Idx :: Entry2Ok(m, map_, k, i) ==> Entry2Ok(m, map', k, i);
    assert forall f: nat :: MappedOk(m, map_, k, f) ==> MappedOk(m, map', k, f);
  }

  /** A blank table put behind an empty entry of the level-2 table. */
  function WithTable(m: Mem, k: Tops, i: Idx, t: FrameNo): Mem {
    Put(m, k.level2, i, TableWord(t))[t := Blank(512)]
  }

  lemma WithTableEntry(m: Mem, map_: seq<Bits>, map': seq<Bits>, k: Tops, i: Idx, t: FrameNo, j: Idx)
    requires Kernel(m, map_, k) && i < 496 && !At(m, k.level2)[i].valid
    requires |map'| == MAP_WORDS && MoreUsed(map_, map') && !InUse(map_, t) && InUse(map', t)
    ensures At(WithTable(m, k, i, t), k.level2) == At(m, k.level2)[i := TableWord(t)]
    ensures Entry2Ok(WithTable(m, k, i, t), map', k, j)
    ensures j < 496 && At(m, k.level2)[j].valid ==> At(m, k.level2)[j].frame != t && At(m, k.level2)[j].frame != k.level2
  {
    var m' := WithTable(m, k, i, t);
    assert At(m', k.level2) == At(m, k.level2)[i := TableWord(t)];
    assert Entry2Ok(m, map_, k, j);
    forall j': Idx | j' < 496 && At(m, k.level2)[j'].valid
      ensures At(m, k.level2)[j'].frame != t
    {
      assert Entry2Ok(m, map_, k, j');
    }
  }

  lemma WithTableMapped(m: Mem, map_: seq<Bits>, map': seq<Bits>, k: Tops, i: Idx, t: FrameNo)
    requires Kernel(m, map_, k) && i < 496 && !At(m, k.level2)[i].valid
    requires |map'| == MAP_WORDS && MoreUsed(map_, map') && !InUse(map_, t) && InUse(map', t)
    ensures forall f: nat :: f < HIGH_FRAME ==> Mapped(WithTable(m, k, i, t), k, f) == Mapped(m, k, f)
    ensures forall f: nat :: IsTable(WithTable(m, k, i, t), k, f) <==> IsTable(m, k, f) || f == t
    ensures forall f: nat :: MappedOk(WithTable(m, k, i, t), map', k, f)
  {
    var m' := WithTable(m, k, i, t);
    WithTableEntry(m, map_, map', k, i, t, i);
    assert At(m', t) == Blank(512);
    forall f: nat
      ensures f < HIGH_FRAME ==> Mapped(m', k, f) == Mapped(m, k, f)
      ensures MappedOk(m', map', k, f)
    {
      WithTableEntry(m, map_, map', k, i, t, Hi(f));
      assert MappedOk(m, map_, k, f);
    }
    forall f: nat
      ensures IsTable(m', k, f) <==> IsTable(m, k, f) || f == t
    {
      assert At(m', k.level2)[i].valid && At(m', k.level2)[i].frame == t;
      if j: Idx :| j < 496 && At(m, k.level2)[j].valid && At(m, k.level2)[j].frame == f {
        assert At(m', k.level2)[j] == At(m, k.level2)[j];
      }
      if j: Idx :| j < 496 && At(m', k.level2)[j].valid && At(m', k.level2)[j].frame == f && j != i {
        assert At(m', k.level2)[j] == At(m, k.level2)[j];
      }
    }
  }

  lemma WithTableKernel(m: Mem, map_: seq<Bits>, map': seq<Bits>, k: Tops, i: Idx, t: FrameNo)
    requires Kernel(m, map_, k) && i < 496 && !At(m, k.level2)[i].valid
    requires |map'| == MAP_WORDS && MoreUsed(map_, map') && !InUse(map_, t) && InUse(map', t)
    ensures Kernel(WithTable(m, k, i, t), map', k)
    ensures forall f: nat :: f < HIGH_FRAME ==> Mapped(WithTable(m, k, i, t), k, f) == Mapped(m, k, f)
    ensures forall f: nat :: IsTable(WithTable(m, k, i, t), k, f) <==> IsTable(m, k, f) || f == t
    ensures forall f: FrameNo :: f != t && f != k.level2 ==> At(WithTable(m, k, i, t), f) == At(m, f)
    ensures At(WithTable(m, k, i, t), k.level2)[i] == TableWord(t)
  {
    WithTableMapped(m, map_, map', k, i, t);
    forall j: Idx
      ensures Entry2Ok(WithTable(m, k, i, t), map', k, j)
    {
      WithTableEntry(m, map_, map', k, i, t, j);
    }
    WithTableEntry(m, map_, map', k, i, t, i);
  }

  /** The level-3 entry of frame `f`, written through its table. */
  function WithLeaf(m: Mem, k: Tops, f: nat, w: Word): Mem {
    Put(m, At(m, k.level2)[Hi(f)].frame, Lo(f), w)
  }

  /** Writing the leaf of `f` maps or unmaps `f` and nothing else. */
  lemma WithLeafKernel(m: Mem, map_: seq<Bits>, map': seq<Bits>, k: Tops, f: FrameNo, w: Word)
    requires Kernel(m, map_, k) && LOW_FRAME <= f < HIGH_FRAME && At(m, k.level2)[Hi(f)].valid
    requires |map'| == MAP_WORDS && forall g: nat :: g != f && InUse(map_, g) ==> InUse(map', g)
    requires InUse(map', f) || !IsTable(m, k, f)
    requires w.valid ==> w.page && w.frame == f && InUse(map', f)
    ensures Kernel(WithLeaf(m, k, f, w), map', k)
    ensures forall g: nat :: g < HIGH_FRAME ==> Mapped(WithLeaf(m, k, f, w), k, g) == if g == f then w.valid else Mapped(m, k, g)
    ensures forall g: nat :: IsTable(WithLeaf(m, k, f, w), k, g) <==> IsTable(m, k, g)
    ensures forall g: FrameNo :: g != At(m, k.level2)[Hi(f)].frame ==> At(WithLeaf(m, k, f, w), g) == At(m, g)
  {
    var m' := WithLeaf(m, k, f, w);
    var t := At(m, k.level2)[Hi(f)].frame;
    assert Entry2Ok(m, map_, k, Hi(f));
    forall j: Idx
      ensures Entry2Ok(m', map', k, j)
      ensures j < 496 && j != Hi(f) && At(m, k.level2)[j].valid ==> At(m, k.level2)[j].frame != t
    {
      assert Entry2Ok(m, map_, k, j);
    }
    forall g: nat | g < HIGH_FRAME
      ensures Mapped(m', k, g) == if g == f then w.valid else Mapped(m, k, g)
    {
      if Hi(g) == Hi(f) && Lo(g) == Lo(f) { HiLo(f, g); }
    }
    forall g: nat
      ensures MappedOk(m', map', k, g)
    {
      assert MappedOk(m, map_, k, g);
      if g < HIGH_FRAME && Hi(g) == Hi(f) && Lo(g) == Lo(f) { HiLo(f, g); }
    }
  }

  /** The linear address of frame `f` has its level-3 table; if it had none before, a free frame became one. */
  ghost predicate HasTable(m: Mem, map_: seq<Bits>, k: Tops, f: nat, m': Mem, map': seq<Bits>)
    requires |map_| == MAP_WORDS
  {
    && Kernel(m', map', k) && At(m', k.level2)[Hi(f)].valid
    && if At(m, k.level2)[Hi(f)].valid then m' == m && map' == map_
       else exists t: FrameNo :: Least(map_, t) && m' == WithTable(m, k, Hi(f), t)
              && forall g: nat :: InUse(map', g) <==> InUse(map_, g) || g == t
  }

  /** The lowest free frame but `f`. */
  ghost predicate Second(map_: seq<Bits>, f: nat, t: nat)
    requires |map_| == MAP_WORDS
  {
    t != f && Free(map_, t) && forall g: nat :: LOW_FRAME <= g < t && g != f ==> InUse(map_, g)
  }

  /** Which frames and which entries at level 2 are taken afterwards. */
  ghost predicate Took(m: Mem, map_: seq<Bits>, k: Tops, f: nat, m': Mem, map': seq<Bits>)
    requires |map_| == MAP_WORDS && |map'| == MAP_WORDS
  {
    && (forall i: Idx :: i < 496 ==> (At(m', k.level2)[i].valid <==> At(m, k.level2)[i].valid || i == Hi(f)))
    && if At(m, k.level2)[Hi(f)].valid then forall g: nat :: InUse(map', g) <==> InUse(map_, g) || g == f
       else exists t: nat :: Second(map_, f, t) && forall g: nat :: InUse(map', g) <==> InUse(map_, g) || g == f || g == t
  }

  /** Frame `f` was free and became a mapped page; at most one other free frame became a table. */
  ghost predicate NewPage(m: Mem, map_: seq<Bits>, k: Tops, f: nat, m': Mem, map': seq<Bits>)
    requires |map_| == MAP_WORDS && |map'| == MAP_WORDS
  {
    && Free(map_, f) && InUse(map', f) && !IsTable(m, k, f) && !IsTable(m', k, f)
    && MoreUsed(map_, map')
    && (forall g: nat :: g < HIGH_FRAME ==> (Mapped(m', k, g) <==> Mapped(m, k, g) || g == f))
    && !Mapped(m, k, f)
    && (forall g: nat :: IsTable(m, k, g) ==> IsTable(m', k, g))
    && (forall g: nat :: IsTable(m', k, g) ==> IsTable(m, k, g) || Free(map_, g))
    && (forall g: FrameNo :: !IsTable(m', k, g) ==> At(m', g) == At(m, g))
  }

  /** The frame has its table, but nothing is mapped at its address yet. */
  ghost predicate NewTable(m: Mem, map_: seq<Bits>, k: Tops, f: nat, m': Mem, map': seq<Bits>)
    requires |map_| == MAP_WORDS && |map'| == MAP_WORDS
  {
    && Free(map_, f) && InUse(map', f) && !IsTable(m, k, f) && !IsTable(m', k, f)
    && MoreUsed(map_, map')
    && (forall g: nat :: g < HIGH_FRAME ==> (Mapped(m', k, g) <==> Mapped(m, k, g)))
    && !Mapped(m, k, f)
    && (forall g: nat :: IsTable(m, k, g) ==> IsTable(m', k, g))
    && (forall g: nat :: IsTable(m', k, g) ==> IsTable(m, k, g) || Free(map_, g))
    && (forall g: FrameNo :: !IsTable(m', k, g) ==> At(m', g) == At(m, g))
  }

  /** A frame that is not in use is neither mapped nor a table. */
  lemma FreeUntouched(m: Mem, map_: seq<Bits>, k: Tops, f: nat)
    requires Kernel(m, map_, k) && Free(map_, f)
    ensures !Mapped(m, k, f) && !IsTable(m, k, f)
  {
    assert MappedOk(m, map_, k, f);
    if i: Idx :| i < 496 && At(m, k.level2)[i].valid && At(m, k.level2)[i].frame == f {
      assert Entry2Ok(m, map_, k, i);
    }
  }

  lemma HasTableNew(m: Mem, map_: seq<Bits>, map1: seq<Bits>, k: Tops, f: nat, m': Mem, map': seq<Bits>)
    requires Kernel(m, map_, k) && Free(map_, f) && |map1| == MAP_WORDS
    requires forall g: nat :: InUse(map1, g) <==> InUse(map_, g) || g == f
    requires HasTable(m, map1, k, f, m', map')
    ensures NewTable(m, map_, k, f, m', map')
  {
    FreeUntouched(m, map_, k, f);
    if !At(m, k.level2)[Hi(f)].valid {
      var t: FrameNo :| Least(map1, t) && m' == WithTable(m, k, Hi(f), t)
                        && forall g: nat :: InUse(map', g) <==> InUse(map1, g) || g == t;
      GraftedTable(m, map_, map1, k, f, t, map');
    }
  }

  lemma HasTableTook(m: Mem, map_: seq<Bits>, map1: seq<Bits>, k: Tops, f: nat, m': Mem, map': seq<Bits>)
    requires Kernel(m, map_, k) && Free(map_, f) && |map1| == MAP_WORDS
    requires forall g: nat :: InUse(map1, g) <==> InUse(map_, g) || g == f
    requires HasTable(m, map1, k, f, m', map')
    ensures Took(m, map_, k, f, m', map')
  {
    if !At(m, k.level2)[Hi(f)].valid {
      var t: FrameNo :| Least(map1, t) && m' == WithTable(m, k, Hi(f), t)
                        && forall g: nat :: InUse(map', g) <==> InUse(map1, g) || g == t;
      MoreUsedKernel(m, map_, map1, k);
      WithTableEntry(m, map1, map', k, Hi(f), t, Hi(f));
      assert Second(map_, f, t);
    }
  }

  /** Writing the leaf changes neither. */
  lemma LeafTook(m: Mem, map_: seq<Bits>, k: Tops, f: FrameNo, m1: Mem, map': seq<Bits>, w: Word)
    requires |map_| == MAP_WORDS && Kernel(m1, map', k) && Took(m, map_, k, f, m1, map') && Hi(f) < 496
    requires At(m1, k.level2)[Hi(f)].valid
    ensures Took(m, map_, k, f, WithLeaf(m1, k, f, w), map')
  {
    assert Entry2Ok(m1, map', k, Hi(f));
    assert At(WithLeaf(m1, k, f, w), k.level2) == At(m1, k.level2);
  }

  lemma GraftedTable(m: Mem, map_: seq<Bits>, map1: seq<Bits>, k: Tops, f: nat, t: FrameNo, map': seq<Bits>)
    requires Kernel(m, map_, k) && Free(map_, f) && |map1| == MAP_WORDS && |map'| == MAP_WORDS
    requires !Mapped(m, k, f) && !IsTable(m, k, f) && !At(m, k.level2)[Hi(f)].valid
    requires forall g: nat :: InUse(map1, g) <==> InUse(map_, g) || g == f
    requires Free(map1, t) && forall g: nat :: InUse(map', g) <==> InUse(map1, g) || g == t
    ensures NewTable(m, map_, k, f, WithTable(m, k, Hi(f), t), map')
  {
    MoreUsedKernel(m, map_, map1, k);
    WithTableKernel(m, map1, map', k, Hi(f), t);
  }

  lemma LeafNew(m: Mem, map_: seq<Bits>, k: Tops, f: FrameNo, m1: Mem, map': seq<Bits>, w: Word)
    requires |map_| == MAP_WORDS && Kernel(m1, map', k) && NewTable(m, map_, k, f, m1, map')
    requires At(m1, k.level2)[Hi(f)].valid && w.valid && w.page && w.frame == f
    ensures NewPage(m, map_, k, f, WithLeaf(m1, k, f, w), map')
  {
    WithLeafKernel(m1, map', map', k, f, w);
    assert IsTable(m1, k, At(m1, k.level2)[Hi(f)].frame);
  }

  lemma RoomIs(m: Mem, map_: seq<Bits>, map1: seq<Bits>, k: Tops, f: nat)
    requires |map_| == MAP_WORDS && |map1| == MAP_WORDS && Least(map_, f)
    requires forall g: nat :: InUse(map1, g) <==> InUse(map_, g) || g == f
    ensures Room(m, map_, k) <==> At(m, k.level2)[Hi(f)].valid || exists g: nat :: Free(map1, g)
  {
    forall g: nat
      ensures Free(map1, g) <==> g != f && Free(map_, g)
    {
    }
    if h: nat :| Least(map_, h) {
      assert Free(map_, h) && Free(map_, f);
      assert h == f;
    }
  }

  // ---------------------------------------------------------------- pointers

  /** The path of the linear address of frame `f`. */
  function LinearPath(f: nat): (p: Path)
    ensures |p| == 4
  {
    [0, 0, Hi(f), Lo(f)]
  }

  /** The 64-bit linear address of the frame with the 18-bit number `hi * 512 + lo` has these indices. */
  lemma LinearAddressPath(f: bv64, hi: bv64, lo: bv64)
    requires hi <= 495 && lo <= 511 && f == (hi << 9) | lo
    ensures PathOfAddress(B.PhysToVirt(f << 12)) == LinearPath(512 * Num(hi) + Num(lo))
  {
    B.FrameAddress(f, hi, lo);
    AddressPath(0, 0, hi, lo);
    Below496(hi);
    assert Num(0) == 0;
  }

  lemma Below496(hi: bv64)
    requires hi <= 495
    ensures Num(hi) < 496
  {}

  /** The pointers of the self-map reach the kernel tables on the path of a linear address. */
  lemma LinearTables(m: Mem, map_: seq<Bits>, k: Tops, f: nat)
    requires Kernel(m, map_, k) && f < HIGH_FRAME
    ensures Walk(m, k.level0, Pointer(LinearPath(f), 0)) == ToPage(k.level0)
    ensures Walk(m, k.level0, Pointer(LinearPath(f), 1)) == ToPage(k.level1)
    ensures Walk(m, k.level0, Pointer(LinearPath(f), 2)) == ToPage(k.level2)
    ensures At(m, k.level2)[Hi(f)].valid ==>
              Walk(m, k.level0, Pointer(LinearPath(f), 3)) == ToPage(At(m, k.level2)[Hi(f)].frame)
  {
    var p := LinearPath(f);
    assert Entry2Ok(m, map_, k, Hi(f));
    var t := At(m, k.level2)[Hi(f)].frame;
    PointerFindsTable(m, k.level0, p, 0, k.level0);
    PointerFindsTable(m, k.level0, p, 1, k.level1);
    PointerFindsTable(m, k.level0, p, 2, k.level2);
    PointerFindsTable(m, k.level0, p, 3, t);
    assert TableAt(m, k.level0, p, 1) == Some(k.level1);
    assert TableAt(m, k.level0, p, 2) == Some(k.level2);
  }

  /** Once a table is linked at level 2, the pointer to the level below leads to it. */
  lemma LinkedPointer(m: Mem, map_: seq<Bits>, k: Tops, f: nat, t: FrameNo)
    requires Kernel(m, map_, k) && f < HIGH_FRAME
    ensures Walk(Put(m, k.level2, Hi(f), TableWord(t)), k.level0, Pointer(LinearPath(f), 3)) == ToPage(t)
  {
    var m' := Put(m, k.level2, Hi(f), TableWord(t));
    var p := LinearPath(f);
    assert TableAt(m', k.level0, p, 1) == Some(k.level1);
    assert TableAt(m', k.level0, p, 2) == Some(k.level2);
    PointerFindsTable(m', k.level0, p, 3, t);
  }

  // ---------------------------------------------------------------- the code

  class KernelMemory {
    const frames: Frames
    const tops: Tops
    var mem: Mem

    constructor (frames: Frames, tops: Tops, mem: Mem)
      requires Kernel(mem, frames.words[..], tops)
      ensures this.frames == frames && this.tops == tops && this.mem == mem && Valid()
    {
      this.frames, this.tops, this.mem := frames, tops, mem;
    }

    ghost predicate Valid()
      reads this, frames, frames.words
    {
      frames.words.Length == MAP_WORDS && Kernel(mem, Map(), tops)
    }

    /** The bitmap. */
    ghost function Map(): seq<Bits>
      reads this, frames, frames.words
    {
      frames.words[..]
    }

    /** Entry `i` of the table a pointer of the self-map leads to. */
    method Read(pointer: Path, i: Idx, ghost t: FrameNo) returns (w: Word)
      requires |pointer| == 4 && Walk(mem, tops.level0, pointer) == ToPage(t)
      ensures w == At(mem, t)[i]
    {
      w := At(mem, Walk(mem, tops.level0, pointer).frame)[i];
    }

    method Write(pointer: Path, i: Idx, w: Word, ghost t: FrameNo)
      requires |pointer| == 4 && Walk(mem, tops.level0, pointer) == ToPage(t)
      modifies this`mem
      ensures mem == Put(old(mem), t, i, w)
    {
      mem := Put(mem, Walk(mem, tops.level0, pointer).frame, i, w);
    }

    method Clear(pointer: Path, ghost t: FrameNo)
      requires |pointer| == 4 && Walk(mem, tops.level0, pointer) == ToPage(t)
      modifies this`mem
      ensures mem == old(mem)[t := Blank(512)]
    {
      mem := mem[Walk(mem, tops.level0, pointer).frame := Blank(512)];
    }

    /** `mem_kernel_free_page` of the linear address of frame `f`. */
    method FreePage(f: FrameNo) returns (err: Err)
      requires Valid() && LOW_FRAME <= f < HIGH_FRAME && !IsTable(mem, tops, f)
      modifies this`mem, frames.words
      ensures Valid()
      ensures err == if old(Mapped(mem, tops, f)) then ErrOk else ErrUnm
      ensures forall g: nat :: InUse(Map(), g) <==> InUse(old(Map()), g) && (err == ErrOk ==> g != f)
      ensures forall g: nat :: g < HIGH_FRAME ==> (Mapped(mem, tops, g) <==> old(Mapped(mem, tops, g)) && g != f)
      ensures forall g: nat :: IsTable(mem, tops, g) <==> old(IsTable(mem, tops, g))
      ensures forall g: FrameNo :: !IsTable(mem, tops, g) ==> At(mem, g) == old(At(mem, g))
      ensures err != ErrOk ==> mem == old(mem)
    {
      var idx := LinearPath(f);
      ghost var t := [tops.level0, tops.level1, tops.level2, At(mem, tops.level2)[Hi(f)].frame];
      LinearTables(mem, Map(), tops, f);
      assert Entry2Ok(mem, Map(), tops, Hi(f));
      assert MappedOk(mem, Map(), tops, f);
      for i := 0 to 4
        invariant mem == old(mem) && Map() == old(Map())
        invariant i == 4 ==> false
        invariant i == 3 ==> At(mem, tops.level2)[Hi(f)].valid
      {
        var w := Read(Pointer(idx, i), idx[i], t[i]);
        if !w.valid {
          return ErrUnm;
        }
        // Entries at levels 0 to 2 are no blocks here.
        if i == 3 || !w.page {
          Write(Pointer(idx, i), idx[i], ZERO, t[i]);
          frames.Free(f);
          WithLeafKernel(old(mem), old(Map()), Map(), tops, f, ZERO);
          return ErrOk;
        }
      }
    }

    /** The frames got so far go back to the bitmap. */
    method GiveBack(pages: seq<Option<FrameNo>>, ghost f: FrameNo)
      requires frames.words.Length == MAP_WORDS && LOW_FRAME <= f < LOW_FRAME + MAP_PAGES
      requires pages == [None, None, None, Some(f)]
      modifies frames.words
      ensures forall g: nat :: InUse(Map(), g) <==> InUse(old(Map()), g) && g != f
    {
      for p := 0 to |pages|
        invariant p <= 3 ==> Map() == old(Map())
        invariant p == 4 ==> forall g: nat :: InUse(Map(), g) <==> InUse(old(Map()), g) && g != f
      {
        if pages[p].Some? { frames.Free(pages[p].value); }
      }
    }

    /** Links a new table and blanks it through the pointer one level down. */
    method Attach(i: nat, f: FrameNo, page: FrameNo, ghost map_: seq<Bits>)
      requires frames.words.Length == MAP_WORDS && Kernel(mem, map_, tops) && i == 2 && f < HIGH_FRAME
      requires !At(mem, tops.level2)[Hi(f)].valid && Free(map_, page)
      requires forall g: nat :: InUse(Map(), g) <==> InUse(map_, g) || g == page
      modifies this`mem
      ensures mem == WithTable(old(mem), tops, Hi(f), page) && Kernel(mem, Map(), tops)
      ensures At(mem, tops.level2)[Hi(f)].valid
    {
      WithTableKernel(mem, map_, Map(), tops, Hi(f), page);
      LinearTables(mem, map_, tops, f);
      LinkedPointer(mem, map_, tops, f, page);
      Write(Pointer(LinearPath(f), i), LinearPath(f)[i], TableWord(page), tops.level2);
      Clear(Pointer(LinearPath(f), i + 1), page);
      assert mem == WithTable(old(mem), tops, Hi(f), page);
    }

    /** One turn of the loop over levels 0 to 2: an entry that links no table gets a blank one.
        Only the entry at level 2 can be empty. */
    method EnsureTable(i: nat, f: FrameNo) returns (page: Option<FrameNo>, ok: bool)
      requires Valid() && LOW_FRAME <= f < LOW_FRAME + MAP_PAGES && i < 3
      modifies this`mem, frames.words
      ensures Valid()
      ensures ok <==> i < 2 || old(At(mem, tops.level2)[Hi(f)].valid) || exists g: nat :: Free(old(Map()), g)
      ensures i < 2 || old(At(mem, tops.level2)[Hi(f)].valid) || !ok ==>
                page == None && mem == old(mem) && Map() == old(Map())
      ensures ok && i == 2 ==> HasTable(old(mem), old(Map()), tops, f, mem, Map())
    {
      var idx := LinearPath(f);
      ghost var t := [tops.level0, tops.level1, tops.level2];
      LinearTables(mem, Map(), tops, f);
      page := None;
      var w := Read(Pointer(idx, i), idx[i], t[i]);
      if w.valid { return None, true; }
      page := frames.Get();
      if page.None? { return None, false; }
      assert Free(old(Map()), page.value);
      Attach(i, f, page.value, old(Map()));
      return page, true;
    }

    /** Levels 0 to 2 for the linear address of frame `f`, which the bitmap has just handed out. */
    method LinkLevels(f: FrameNo) returns (ok: bool)
      requires Valid() && LOW_FRAME <= f < LOW_FRAME + MAP_PAGES && InUse(Map(), f)
      modifies this`mem, frames.words
      ensures ok <==> old(At(mem, tops.level2)[Hi(f)].valid) || exists g: nat :: Free(old(Map()), g)
      ensures ok ==> HasTable(old(mem), old(Map()), tops, f, mem, Map())
      ensures !ok ==> mem == old(mem) && forall g: nat :: InUse(Map(), g) <==> InUse(old(Map()), g) && g != f
    {
      ghost var m0, map0 := mem, Map();
      var pages: seq<Option<FrameNo>> := [None, None, None, Some(f)];
      for i := 0 to 3
        invariant i <= 2 ==> Valid() && mem == m0 && Map() == map0 && pages == [None, None, None, Some(f)]
        invariant i == 3 ==> HasTable(m0, map0, tops, f, mem, Map())
        invariant i == 3 ==> At(m0, tops.level2)[Hi(f)].valid || exists g: nat :: Free(map0, g)
      {
        var page, more := EnsureTable(i, f);
        pages := pages[i := page];
        if !more {
          GiveBack(pages, f);
          return false;
        }
      }
      return true;
    }

    /** Level 3.  The entry is never taken: what is mapped is in use, and the frame was not. */
    method WriteLeaf(f: FrameNo, perm: Perm, ghost m: Mem, ghost map_: seq<Bits>)
      requires Valid() && |map_| == MAP_WORDS && NewTable(m, map_, tops, f, mem, Map()) && perm != NoPerm
      requires At(mem, tops.level2)[Hi(f)].valid && Took(m, map_, tops, f, mem, Map())
      modifies this`mem
      ensures Valid() && NewPage(m, map_, tops, f, mem, Map()) && Took(m, map_, tops, f, mem, Map())
    {
      ghost var t := At(mem, tops.level2)[Hi(f)].frame;
      LinearTables(mem, Map(), tops, f);
      var w := Read(Pointer(LinearPath(f), 3), Lo(f), t);
      if w.valid {
        // This is where the source returns ERR_MEM_EXS.
        assert false;
      }
      WithLeafKernel(mem, Map(), Map(), tops, f, KernelLeaf(f, perm));
      LeafNew(m, map_, tops, f, mem, Map(), KernelLeaf(f, perm));
      LeafTook(m, map_, tops, f, mem, Map(), KernelLeaf(f, perm));
      // The source writes zero first.
      Write(Pointer(LinearPath(f), 3), Lo(f), KernelLeaf(f, perm), t);
      assert mem == WithLeaf(old(mem), tops, f, KernelLeaf(f, perm));
    }

    /** `mem_kernel_alloc_page` */
    method AllocPage(perm: Perm) returns (err: Err, f: FrameNo)
      requires Valid()
      modifies this`mem, frames.words
      ensures Valid()
      ensures err == ErrFlg <==> perm == NoPerm
      ensures err == ErrOom <==> perm != NoPerm && !old(Room(mem, Map(), tops))
      ensures err == ErrOk || err == ErrFlg || err == ErrOom
      ensures err != ErrOk ==> mem == old(mem) && forall g: nat :: InUse(Map(), g) <==> InUse(old(Map()), g)
      ensures err == ErrOk ==> NewPage(old(mem), old(Map()), tops, f, mem, Map())
      ensures err == ErrOk ==> Least(old(Map()), f) && Took(old(mem), old(Map()), tops, f, mem, Map())
    {
      if perm == NoPerm { return ErrFlg, 0; }
      var got := frames.Get();
      if got.None? { return ErrOom, 0; }
      f := got.value;
      MoreUsedKernel(mem, old(Map()), Map(), tops);
      ghost var map1 := Map();
      assert Least(old(Map()), f);
      RoomIs(mem, old(Map()), map1, tops, f);
      var ok := LinkLevels(f);
      if !ok {
        MoreUsedKernel(mem, old(Map()), Map(), tops);
        return ErrOom, 0;
      }
      HasTableNew(old(mem), old(Map()), map1, tops, f, mem, Map());
      HasTableTook(old(mem), old(Map()), map1, tops, f, mem, Map());
      WriteLeaf(f, perm, old(mem), old(Map()));
      return ErrOk, f;
    }
  }
}
