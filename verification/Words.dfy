/** Page-table descriptors as records (mmu.h).

    A descriptor is a 64-bit word.  The kernel reads and rewrites it with shifts and masks;
    the memory model works with the same 64 bits taken apart into the fields of `Word`.
    Module Descriptor proves that this loses nothing and that every bit-level operation of
    the kernel does to the bits what the functions below do to the fields. */
module Words {

  /** Access permissions, bits 6 and 7: who may read and write the page. */
  datatype Ap = NaRw | RwRw | NaRo | RoRo

  /** Physical page number: a 48-bit address without its 12 offset bits. */
  type FrameNo = f: nat | f < 0x10_0000_0000

  /** Reference counter, bits 55 to 58. */
  type RefCount = r: nat | r <= 15

  /** A 64-bit memory word seen as a descriptor; `rest` holds all bits no other field covers. */
  datatype Word = Word(valid: bool, page: bool, ap: Ap, frame: FrameNo, refs: RefCount, rest: bv64)

  const ZERO: Word := Word(false, false, NaRw, 0, 0, 0)

  /** `mmu_mark_copied`: one more owner unless the counter is saturated; user writes are taken away. */
  function Copied(w: Word): Word {
    w.(refs := if w.refs < 15 then w.refs + 1 else 15,
       ap := if w.ap == RwRw then NaRo else w.ap)
  }

  /** `mmu_mark_freed`: one owner less, unless there was only one. */
  function Freed(w: Word): Word {
    w.(refs := if w.refs > 0 then w.refs - 1 else 0)
  }

  /** The descriptor that links a table: valid, table, access flag (bit 10) set, counter zero. */
  function TableWord(f: FrameNo): Word { Word(true, true, NaRw, f, 0, 0x400) }

  /** A leaf moved to its own copy of the page, writable by the user. */
  function Repointed(w: Word, f: FrameNo): Word { w.(frame := f, ap := RwRw) }

  /** Protection and memory type as callers of `mem_user_map_page` pass them; `NoPerm` is any other value. */
  datatype Perm = MemRo | MemRw | MemEx | NoPerm
  datatype Attr = MemNorm | MemDevc

  /** The leaf `mem_user_map_page` writes: access flag, memory type (bit 5 for normal memory) and the
      execute-never bits 53 (kernel) and 54 (user). */
  function LeafWord(f: FrameNo, perm: Perm, attr: Attr): Word
    requires perm != NoPerm
  {
    var noexec: bv64 := if perm == MemEx then 0x20_0000_0000_0000 else 0x60_0000_0000_0000;
    var kind: bv64 := if attr == MemNorm then 0x420 else 0x400;
    Word(true, true, if perm == MemRw then RwRw else RoRo, f, 0, noexec | kind)
  }

  /** The leaf that maps kernel page `f`: no access for users. */
  function KernelLeaf(f: FrameNo, perm: Perm): Word
    requires perm != NoPerm
  {
    var noexec: bv64 := if perm == MemEx then 0x40_0000_0000_0000 else 0x60_0000_0000_0000;
    Word(true, true, if perm == MemRw then NaRw else NaRo, f, 0, noexec | 0x420)
  }

  // ---------------------------------------------------------------- who may do what with a page

  /** Users may run the code in the page: bit 54 is clear. */
  predicate UserRuns(w: Word) { w.rest & (1 << 54) == 0 }

  /** The kernel may run the code in the page: bit 53 is clear. */
  predicate KernelRuns(w: Word) { w.rest & (1 << 53) == 0 }

  /** The memory is normal memory, not a device: bit 5. */
  predicate NormalMemory(w: Word) { w.rest & (1 << 5) != 0 }

  predicate UserReads(w: Word) { w.ap == RwRw || w.ap == RoRo }

  predicate UserWrites(w: Word) { w.ap == RwRw }

  /** A user page is always readable, writable only with MEM_RW, and runs only with MEM_EX; the kernel never
      runs it. */
  lemma LeafRights(f: FrameNo, perm: Perm, attr: Attr)
    requires perm != NoPerm
    ensures var w := LeafWord(f, perm, attr);
            && w.valid && w.page && w.frame == f && w.refs == 0
            && UserReads(w) && (UserWrites(w) <==> perm == MemRw) && (UserRuns(w) <==> perm == MemEx)
            && !KernelRuns(w) && (NormalMemory(w) <==> attr == MemNorm)
  {}

  /** Users neither read, write nor run a kernel page; the kernel writes it only with MEM_RW, and runs it only
      with MEM_EX. */
  lemma KernelRights(f: FrameNo, perm: Perm)
    requires perm != NoPerm
    ensures var w := KernelLeaf(f, perm);
            && w.valid && w.page && w.frame == f && w.refs == 0
            && !UserReads(w) && !UserWrites(w) && !UserRuns(w) && (w.ap == NaRw <==> perm == MemRw)
            && (KernelRuns(w) <==> perm == MemEx) && NormalMemory(w)
  {}
}
