/** The kernel reaches its own page tables through slot 511 of the top-level table, which points to that
    table itself (mmu.c; chapter D8 of the Arm Architecture Reference Manual).  Addresses are 64-bit words;
    the hardware takes four 9-bit indices out of them. */
module SelfMapBits {

  /** A kernel address: all 16 upper bits set, the four indices, and an offset of zero. */
  function Address(a: bv64, b: bv64, c: bv64, d: bv64): bv64 {
    0xffff_0000_0000_0000 | (a << 39) | (b << 30) | (c << 21) | (d << 12)
  }

  /** `mmu_get_table_idx` */
  function Index(va: bv64, level: int): (i: bv64)
    requires 0 <= level < 4
    ensures i <= 511
  {
    match level
    case 0 => (va >> 39) & 0x1ff
    case 1 => (va >> 30) & 0x1ff
    case 2 => (va >> 21) & 0x1ff
    case 3 => (va >> 12) & 0x1ff
  }

  /** `mmu_get_next_kernel_level` */
  function NextLevel(table: bv64, idx: bv64): bv64 { (table << 9) | (idx << 12) }

  /** MEM_PHYS_TO_VIRT */
  function PhysToVirt(pa: bv64): bv64 { pa + 0xffff_0000_0000_0000 }

  lemma AddressIndex(a: bv64, b: bv64, c: bv64, d: bv64)
    requires a <= 511 && b <= 511 && c <= 511 && d <= 511
    ensures Index(Address(a, b, c, d), 0) == a && Index(Address(a, b, c, d), 1) == b
    ensures Index(Address(a, b, c, d), 2) == c && Index(Address(a, b, c, d), 3) == d
  {}

  /** Under a pointer that goes through slot 511, the step to the next level drops the first index of the
      pointer and appends the new one. */
  lemma NextLevelDropsFirst(b: bv64, c: bv64, d: bv64, i: bv64)
    requires b <= 511 && c <= 511 && d <= 511 && i <= 511
    ensures NextLevel(Address(511, b, c, d), i) == Address(b, c, d, i)
  {}

  /** The pointers the kernel builds for the tables on the path of `va`, starting from the address of the
      top-level table. */
  lemma TablePointers(va: bv64)
    ensures var i0, i1, i2 := Index(va, 0), Index(va, 1), Index(va, 2);
            && 0xffff_ffff_ffff_f000 == Address(511, 511, 511, 511)
            && NextLevel(0xffff_ffff_ffff_f000, i0) == Address(511, 511, 511, i0)
            && NextLevel(Address(511, 511, 511, i0), i1) == Address(511, 511, i0, i1)
            && NextLevel(Address(511, 511, i0, i1), i2) == Address(511, i0, i1, i2)
  {
    var i0, i1, i2 := Index(va, 0), Index(va, 1), Index(va, 2);
    NextLevelDropsFirst(511, 511, 511, i0);
    NextLevelDropsFirst(511, 511, i0, i1);
    NextLevelDropsFirst(511, i0, i1, i2);
  }

  /** Physical pages below 1 GiB (bits 12 to 29) have their kernel addresses below slot 0 of the top two tables. */
  lemma LinearAddress(frame: bv64)
    requires frame < 0x40000
    ensures PhysToVirt(frame << 12) == Address(0, 0, frame >> 9, frame & 0x1ff)
  {}

  lemma FrameHi(hi: bv64, lo: bv64)
    requires hi <= 511 && lo <= 511
    ensures ((hi << 9) | lo) < 0x40000 && ((hi << 9) | lo) >> 9 == hi
  {}

  lemma FrameLo(hi: bv64, lo: bv64)
    requires hi <= 511 && lo <= 511
    ensures ((hi << 9) | lo) & 0x1ff == lo
  {}

  lemma FrameIs(f: bv64, hi: bv64, lo: bv64)
    requires f < 0x40000 && f >> 9 == hi && f & 0x1ff == lo
    ensures PhysToVirt(f << 12) == Address(0, 0, hi, lo)
  {
    LinearAddress(f);
  }

  lemma FrameAddress(f: bv64, hi: bv64, lo: bv64)
    requires hi <= 511 && lo <= 511 && f == (hi << 9) | lo
    ensures PhysToVirt(f << 12) == Address(0, 0, hi, lo)
  {
    FrameHi(hi, lo);
    FrameLo(hi, lo);
    FrameIs(f, hi, lo);
  }
}

/** What the hardware makes of the pointers, given the contents of the tables. */
module SelfMap {
  import opened Options
  import opened Words
  import opened Paging
  import opened SelfMapBits

  /** Outcome of a hardware walk; a block ends the walk at level 1 or 2. */
  datatype Translation = Fault | ToPage(frame: FrameNo) | ToBlock(level: nat, frame: FrameNo)

  function WalkLevel3(m: Mem, t: FrameNo, d: Idx): Translation {
    var w := At(m, t)[d];
    if w.valid && w.page then ToPage(w.frame) else Fault
  }

  function WalkLevel2(m: Mem, t: FrameNo, c: Idx, d: Idx): Translation {
    var w := At(m, t)[c];
    if !w.valid then Fault else if !w.page then ToBlock(2, w.frame) else WalkLevel3(m, w.frame, d)
  }

  function WalkLevel1(m: Mem, t: FrameNo, b: Idx, c: Idx, d: Idx): Translation {
    var w := At(m, t)[b];
    if !w.valid then Fault else if !w.page then ToBlock(1, w.frame) else WalkLevel2(m, w.frame, c, d)
  }

  /** The four-level walk; there are no blocks at level 0. */
  function Walk(m: Mem, root: FrameNo, p: Path): Translation
    requires |p| == 4
  {
    var w := At(m, root)[p[0]];
    if w.valid && w.page then WalkLevel1(m, w.frame, p[1], p[2], p[3]) else Fault
  }

  function IndexOf(va: bv64, level: int): (i: Idx)
    requires 0 <= level < 4
  {
    var b := Index(va, level);
    assert b <= 511;
    b as int
  }

  function PathOfAddress(va: bv64): (p: Path)
    ensures |p| == 4
  {
    [IndexOf(va, 0), IndexOf(va, 1), IndexOf(va, 2), IndexOf(va, 3)]
  }

  /** The table that entry `i` of table `t` links. */
  function TableIn(m: Mem, t: Option<FrameNo>, i: Idx): Option<FrameNo> {
    if t.Some? && At(m, t.value)[i].valid && At(m, t.value)[i].page then Some(At(m, t.value)[i].frame) else None
  }

  /** The table at `level` on the path `p`: level 0 is the top-level table. */
  function TableAt(m: Mem, root: FrameNo, p: Path, level: nat): Option<FrameNo>
    requires |p| == 4 && level <= 3
  {
    if level == 0 then Some(root) else TableIn(m, TableAt(m, root, p, level - 1), p[level - 1])
  }

  lemma TablesOnPath(m: Mem, root: FrameNo, p: Path)
    requires |p| == 4
    ensures TableAt(m, root, p, 0) == Some(root) && TableAt(m, root, p, 1) == TableIn(m, Some(root), p[0])
    ensures TableAt(m, root, p, 2) == TableIn(m, TableAt(m, root, p, 1), p[1])
    ensures TableAt(m, root, p, 3) == TableIn(m, TableAt(m, root, p, 2), p[2])
  {}

  /** Where the walk ends: at the page behind the last entry, if each of the four entries on the path is valid and no
      block; at the block behind the first entry that is one, at level 1 or 2; with a fault otherwise. */
  lemma WalkEnds(m: Mem, root: FrameNo, p: Path, level: nat, f: FrameNo)
    requires |p| == 4
    ensures Walk(m, root, p) == ToPage(f) <==> TableIn(m, TableAt(m, root, p, 3), p[3]) == Some(f)
    ensures Walk(m, root, p) == ToBlock(level, f) <==>
      && 1 <= level <= 2 && TableAt(m, root, p, level).Some?
      && var w := At(m, TableAt(m, root, p, level).value)[p[level]]; w.valid && !w.page && w.frame == f
  {
    TablesOnPath(m, root, p);
  }

  /** Slot 511 leads back to the table itself. */
  predicate SelfLinked(m: Mem, root: FrameNo) {
    var w := At(m, root)[511];
    w.valid && w.page && w.frame == root
  }

  /** The path of the pointer to the level-`n` table on path `p`: `mmu_get_next_kernel_level` applied `n` times. */
  function Pointer(p: Path, n: nat): (q: Path)
    requires |p| == 4 && n <= 3
    ensures |q| == 4
  {
    if n == 0 then [511, 511, 511, 511] else Pointer(p, n - 1)[1..] + [p[n - 1]]
  }

  /** The hardware finds exactly the tables on the path behind the pointers. */
  lemma {:induction false} PointerFindsTable(m: Mem, root: FrameNo, p: Path, n: nat, t: FrameNo)
    requires |p| == 4 && n <= 3 && SelfLinked(m, root)
    ensures Walk(m, root, Pointer(p, n)) == ToPage(t) <==> TableAt(m, root, p, n) == Some(t)
  {
    PointerIs(p);
    assert TableAt(m, root, p, 1) == TableIn(m, Some(root), p[0]);
    assert TableAt(m, root, p, 2) == TableIn(m, TableAt(m, root, p, 1), p[1]);
  }

  /** The pointer of `mmu_get_next_kernel_level` for the level-`n` table on the path of `va`, as an address. */
  function PointerAddress(va: bv64, n: nat): bv64
    requires n <= 3
  {
    if n == 0 then 0xffff_ffff_ffff_f000 else NextLevel(PointerAddress(va, n - 1), Index(va, n - 1))
  }

  function Num(b: bv64): (i: Idx)
    requires b <= 511
  {
    b as int
  }

  lemma AddressPath(a: bv64, b: bv64, c: bv64, d: bv64)
    requires a <= 511 && b <= 511 && c <= 511 && d <= 511
    ensures PathOfAddress(Address(a, b, c, d)) == [Num(a), Num(b), Num(c), Num(d)]
  {
    AddressIndex(a, b, c, d);
  }

  lemma PointerAddressIs(va: bv64)
    ensures var i0, i1, i2 := Index(va, 0), Index(va, 1), Index(va, 2);
            && PointerAddress(va, 0) == Address(511, 511, 511, 511)
            && PointerAddress(va, 1) == Address(511, 511, 511, i0)
            && PointerAddress(va, 2) == Address(511, 511, i0, i1)
            && PointerAddress(va, 3) == Address(511, i0, i1, i2)
  {
    TablePointers(va);
    var p1 := PointerAddress(va, 1);
    var p2 := PointerAddress(va, 2);
    assert p1 == NextLevel(PointerAddress(va, 0), Index(va, 0));
    assert p2 == NextLevel(p1, Index(va, 1));
  }

  lemma PointerIs(p: Path)
    requires |p| == 4
    ensures Pointer(p, 1) == [511, 511, 511, p[0]]
    ensures Pointer(p, 2) == [511, 511, p[0], p[1]]
    ensures Pointer(p, 3) == [511, p[0], p[1], p[2]]
  {
    assert Pointer(p, 1) == [511, 511, 511, p[0]];
    assert Pointer(p, 2) == [511, 511, p[0], p[1]];
  }

  /** Slot 511 as the hardware's index. */
  lemma LastSlot()
    ensures Num(511) == 511
  {}

  lemma TopPaths(s: bv64, i0: bv64, i1: bv64, i2: bv64)
    requires s <= 511 && i0 <= 511 && i1 <= 511 && i2 <= 511 && Num(s) == 511
    ensures PathOfAddress(Address(s, s, s, s)) == [511, 511, 511, 511]
    ensures PathOfAddress(Address(s, s, s, i0)) == [511, 511, 511, Num(i0)]
    ensures PathOfAddress(Address(s, s, i0, i1)) == [511, 511, Num(i0), Num(i1)]
    ensures PathOfAddress(Address(s, i0, i1, i2)) == [511, Num(i0), Num(i1), Num(i2)]
  {
    AddressPath(s, s, s, s);
    AddressPath(s, s, s, i0);
    AddressPath(s, s, i0, i1);
    AddressPath(s, i0, i1, i2);
  }

  lemma PathIs(va: bv64)
    ensures PathOfAddress(va) == [Num(Index(va, 0)), Num(Index(va, 1)), Num(Index(va, 2)), Num(Index(va, 3))]
  {}

  lemma PointerPaths(va: bv64)
    ensures PathOfAddress(PointerAddress(va, 0)) == [511, 511, 511, 511]
    ensures PathOfAddress(PointerAddress(va, 1)) == [511, 511, 511, Num(Index(va, 0))]
    ensures PathOfAddress(PointerAddress(va, 2)) == [511, 511, Num(Index(va, 0)), Num(Index(va, 1))]
    ensures PathOfAddress(PointerAddress(va, 3)) == [511, Num(Index(va, 0)), Num(Index(va, 1)), Num(Index(va, 2))]
  {
    LastSlot();
    PointerAddressIs(va);
    TopPaths(511, Index(va, 0), Index(va, 1), Index(va, 2));
  }

  lemma PointerAddressPath(va: bv64, n: nat)
    requires n <= 3
    ensures PathOfAddress(PointerAddress(va, n)) == Pointer(PathOfAddress(va), n)
  {
    PointerPaths(va);
    PathIs(va);
    PointerIs(PathOfAddress(va));
  }

  /** The recursive map: the addresses the kernel computes for the tables of `va` translate to those tables,
      and to nothing if `va` has no such table. */
  lemma SelfMapped(m: Mem, root: FrameNo, va: bv64, n: nat, t: FrameNo)
    requires n <= 3 && SelfLinked(m, root)
    ensures Walk(m, root, PathOfAddress(PointerAddress(va, n))) == ToPage(t)
            <==> TableAt(m, root, PathOfAddress(va), n) == Some(t)
  {
    PointerAddressPath(va, n);
    PointerFindsTable(m, root, PathOfAddress(va), n, t);
  }
}
