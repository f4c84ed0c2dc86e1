/** The bit-level side of page-table descriptors (mmu.h, mmu.c): the kernel's shifts and
    masks, and the proof that they refine the field-level functions of module Words. */
module Descriptor {
  import opened Words

  // ---------------------------------------------------------------- constants

  const VALID: bv64 := 1
  const PAGE: bv64 := 1 << 1
  const AF_SET: bv64 := 1 << 10
  const AP_MASK: bv64 := 3 << 6
  const AP_RW_RW: bv64 := 1 << 6
  const AP_NA_RO: bv64 := 2 << 6
  const AP_RO_RO: bv64 := 3 << 6
  const REF_MASK: bv64 := 0xf << 55
  const REF_LIMIT: bv64 := 0xf
  const ADDR: bv64 := 0x0000_ffff_ffff_f000
  const NORMAL: bv64 := 8 << 2
  const PXN_NOEXEC: bv64 := 1 << 53
  const UXN_NOEXEC: bv64 := 1 << 54

  // ---------------------------------------------------------------- the kernel's bit operations

  predicate IsValid(e: bv64) { e & VALID != 0 }

  predicate IsBlock(e: bv64) { e & PAGE == 0 }

  /** The counter's bits replaced. */
  function WithRefs(e: bv64, ref: bv64): bv64 { (e & !REF_MASK) | (ref << 55) }

  /** The access bits replaced by "no access for users, read-only". */
  function ReadOnly(e: bv64): bv64 { (e & !AP_MASK) | AP_NA_RO }

  /** First half of `mmu_mark_copied`: count one more owner unless the counter is saturated. */
  function CountUp(e: bv64): bv64 {
    var ref := (e >> 55) & 0xf;
    if ref < REF_LIMIT then WithRefs(e, ref + 1) else e
  }

  /** Second half of `mmu_mark_copied`: a user-writable page becomes read-only, and kernel-only. */
  function TakeWrite(e: bv64): bv64 {
    if e & AP_MASK == AP_RW_RW then ReadOnly(e) else e
  }

  function MarkCopied(e: bv64): bv64 { TakeWrite(CountUp(e)) }

  /** `mmu_mark_freed`: count one owner less; the kernel also returns the old counter. */
  function MarkFreed(e: bv64): bv64 {
    var ref := (e >> 55) & 0xf;
    if ref > 0 then WithRefs(e, ref - 1) else e
  }

  /** The descriptor that links a table page at the page-aligned physical address `phys`. */
  function LinkTable(phys: bv64): bv64 { phys | VALID | PAGE | AF_SET }

  /** What the data-abort handler writes over a leaf once its page has been copied to `phys`. */
  function Repoint(e: bv64, phys: bv64): bv64 {
    (((e & !ADDR) & !AP_MASK) | phys) | AP_RW_RW
  }

  // ---------------------------------------------------------------- taking a word apart

  /** The fields as bit strings, before counters and page numbers are read as numbers. */
  datatype Bits = Bits(valid: bool, page: bool, ap: Ap, frame: bv36, refs: bv4, rest: bv64)

  function ApBits(a: Ap): bv64 {
    match a
    case NaRw => 0
    case RwRw => 1
    case NaRo => 2
    case RoRo => 3
  }

  function ApOf(e: bv64): Ap {
    var a := (e >> 6) & 3;
    if a == 0 then NaRw else if a == 1 then RwRw else if a == 2 then NaRo else RoRo
  }

  function FrameBits(e: bv64): bv36 { ((e & ADDR) >> 12) as bv36 }

  function RefBits(e: bv64): bv4 { ((e >> 55) & 0xf) as bv4 }

  function RestBits(e: bv64): bv64 { e & !(ADDR | 3 | AP_MASK | REF_MASK) }

  function Split(e: bv64): Bits {
    Bits(IsValid(e), !IsBlock(e), ApOf(e), FrameBits(e), RefBits(e), RestBits(e))
  }

  function Join(b: Bits): bv64 {
    (if b.valid then VALID else 0) | (if b.page then PAGE else 0) | (ApBits(b.ap) << 6)
    | ((b.frame as bv64) << 12) | ((b.refs as bv64) << 55) | b.rest
  }

  function ToWord(b: Bits): Word
  {
    Word(b.valid, b.page, b.ap, b.frame as nat, b.refs as nat, b.rest)
  }

  function ToBits(w: Word): Bits {
    Bits(w.valid, w.page, w.ap, w.frame as bv36, w.refs as bv4, w.rest)
  }

  function Unpack(e: bv64): Word { ToWord(Split(e)) }

  function Pack(w: Word): bv64 { Join(ToBits(w)) }

  /** Page number of a page-aligned physical address. */
  function FrameOf(phys: bv64): FrameNo { Split(phys).frame as nat }

  // ---------------------------------------------------------------- no information is lost

  lemma JoinSplit(e: bv64)
    ensures Join(Split(e)) == e
  {}

  lemma BitsBack(b: Bits)
    ensures ToBits(ToWord(b)) == b
  {}

  lemma PackUnpack(e: bv64)
    ensures Pack(Unpack(e)) == e
  {
    BitsBack(Split(e));
    JoinSplit(e);
  }

  // ---------------------------------------------------------------- bits refine fields

  lemma WithRefsFlags(e: bv64, r: bv64)
    requires r <= 0xf
    ensures IsValid(WithRefs(e, r)) == IsValid(e) && IsBlock(WithRefs(e, r)) == IsBlock(e)
    ensures ApOf(WithRefs(e, r)) == ApOf(e)
  {}

  lemma WithRefsFrame(e: bv64, r: bv64)
    requires r <= 0xf
    ensures FrameBits(WithRefs(e, r)) == FrameBits(e)
  {}

  lemma WithRefsRefs(e: bv64, r: bv64)
    requires r <= 0xf
    ensures RefBits(WithRefs(e, r)) == r as bv4
  {}

  lemma WithRefsRest(e: bv64, r: bv64)
    requires r <= 0xf
    ensures RestBits(WithRefs(e, r)) == RestBits(e)
  {}

  lemma SetRefsSplit(e: bv64, r: bv64)
    requires r <= 0xf
    ensures Split(WithRefs(e, r)) == Split(e).(refs := r as bv4)
  {
    WithRefsFlags(e, r);
    WithRefsFrame(e, r);
    WithRefsRefs(e, r);
    WithRefsRest(e, r);
  }

  lemma ReadOnlyFlags(e: bv64)
    ensures IsValid(ReadOnly(e)) == IsValid(e) && IsBlock(ReadOnly(e)) == IsBlock(e)
  {}

  lemma ReadOnlyAp(e: bv64)
    ensures ApOf(ReadOnly(e)) == NaRo
  {}

  lemma ReadOnlyFrame(e: bv64)
    ensures FrameBits(ReadOnly(e)) == FrameBits(e)
  {}

  lemma ReadOnlyRefs(e: bv64)
    ensures RefBits(ReadOnly(e)) == RefBits(e)
  {}

  lemma ReadOnlyRest(e: bv64)
    ensures RestBits(ReadOnly(e)) == RestBits(e)
  {}

  lemma WritableAp(e: bv64)
    ensures e & AP_MASK == AP_RW_RW <==> ApOf(e) == RwRw
  {}

  lemma ReadOnlySplit(e: bv64)
    ensures Split(ReadOnly(e)) == Split(e).(ap := NaRo)
  {
    ReadOnlyFlags(e);
    ReadOnlyAp(e);
    ReadOnlyFrame(e);
    ReadOnlyRefs(e);
    ReadOnlyRest(e);
  }

  lemma TakeWriteSplit(e: bv64)
    ensures Split(TakeWrite(e)) == Split(e).(ap := if Split(e).ap == RwRw then NaRo else Split(e).ap)
  {
    WritableAp(e);
    ReadOnlySplit(e);
  }

  lemma RefUpBits(x: bv64)
    requires x <= 0xf
    ensures x < 15 <==> x as bv4 < 15
    ensures x < 15 ==> (x as bv4 + 1) as bv64 == x + 1
  {}

  lemma RefDownBits(x: bv64)
    requires x <= 0xf
    ensures x > 0 <==> x as bv4 > 0
    ensures x > 0 ==> (x as bv4 - 1) as bv64 == x - 1
  {}

  lemma CountUpSplit(e: bv64)
    ensures Split(CountUp(e)) == Split(e).(refs := if Split(e).refs < 15 then Split(e).refs + 1 else 15)
  {
    var x := (e >> 55) & 0xf;
    RefUpBits(x);
    if x < 15 { SetRefsSplit(e, x + 1); }
  }

  lemma MarkCopiedSplit(e: bv64)
    ensures var b := Split(e);
            Split(MarkCopied(e)) ==
            b.(refs := if b.refs < 15 then b.refs + 1 else 15, ap := if b.ap == RwRw then NaRo else b.ap)
  {
    CountUpSplit(e);
    TakeWriteSplit(CountUp(e));
  }

  lemma MarkFreedSplit(e: bv64)
    ensures var b := Split(e);
            Split(MarkFreed(e)) == b.(refs := if b.refs > 0 then b.refs - 1 else 0)
  {
    var x := (e >> 55) & 0xf;
    RefDownBits(x);
    if x > 0 { SetRefsSplit(e, x - 1); }
  }

  lemma RefUp(x: bv4)
    ensures x as nat <= 15
    ensures (if x < 15 then x + 1 else 15) as nat == if x as nat < 15 then x as nat + 1 else 15
  {}

  lemma RefDown(x: bv4)
    ensures (if x > 0 then x - 1 else 0) as nat == if x as nat > 0 then x as nat - 1 else 0
  {}

  lemma MarkCopiedFields(e: bv64)
    ensures Unpack(MarkCopied(e)) == Copied(Unpack(e))
  {
    MarkCopiedSplit(e);
    RefUp(Split(e).refs);
  }

  lemma MarkFreedFields(e: bv64)
    ensures Unpack(MarkFreed(e)) == Freed(Unpack(e))
  {
    MarkFreedSplit(e);
    RefDown(Split(e).refs);
  }

  lemma RepointFlags(e: bv64, phys: bv64)
    requires phys & !ADDR == 0
    ensures IsValid(Repoint(e, phys)) == IsValid(e) && IsBlock(Repoint(e, phys)) == IsBlock(e)
  {}

  lemma RepointAp(e: bv64, phys: bv64)
    requires phys & !ADDR == 0
    ensures ApOf(Repoint(e, phys)) == RwRw
  {}

  lemma RepointFrame(e: bv64, phys: bv64)
    requires phys & !ADDR == 0
    ensures FrameBits(Repoint(e, phys)) == FrameBits(phys)
  {}

  lemma RepointRefs(e: bv64, phys: bv64)
    requires phys & !ADDR == 0
    ensures RefBits(Repoint(e, phys)) == RefBits(e)
  {}

  lemma RepointRest(e: bv64, phys: bv64)
    requires phys & !ADDR == 0
    ensures RestBits(Repoint(e, phys)) == RestBits(e)
  {}

  lemma RepointSplit(e: bv64, phys: bv64)
    requires phys & !ADDR == 0
    ensures Split(Repoint(e, phys)) == Split(e).(frame := Split(phys).frame, ap := RwRw)
  {
    RepointFlags(e, phys);
    RepointAp(e, phys);
    RepointFrame(e, phys);
    RepointRefs(e, phys);
    RepointRest(e, phys);
  }

  lemma RepointFields(e: bv64, phys: bv64)
    requires phys & !ADDR == 0
    ensures Unpack(Repoint(e, phys)) == Repointed(Unpack(e), FrameOf(phys))
  {
    RepointSplit(e, phys);
  }

  /** Attribute bits as `mem_user_map_page` collects them. */
  function PageAttr(perm: Perm, attr: Attr): bv64
    requires perm != NoPerm
  {
    var pattr := match perm
      case MemRo => AP_RO_RO | PXN_NOEXEC | UXN_NOEXEC
      case MemRw => AP_RW_RW | PXN_NOEXEC | UXN_NOEXEC
      case MemEx => AP_RO_RO | PXN_NOEXEC;
    pattr | (if attr == MemNorm then NORMAL else 0)
  }

  /** Attribute bits as `mem_kernel_alloc_page` collects them, and the memory type it adds. */
  function KernelAttr(perm: Perm): bv64
    requires perm != NoPerm
  {
    var attr := match perm
      case MemRo => AP_NA_RO | PXN_NOEXEC | UXN_NOEXEC
      case MemRw => PXN_NOEXEC | UXN_NOEXEC
      case MemEx => AP_NA_RO | UXN_NOEXEC;
    attr | NORMAL
  }

  function MapLeaf(phys: bv64, pattr: bv64): bv64 { phys | pattr | VALID | PAGE | AF_SET }

  /** Bits that neither an address nor a counter nor the two flags take. */
  predicate OnlyAttr(pattr: bv64) { pattr & (ADDR | 3 | REF_MASK) == 0 }

  lemma MapLeafFlags(phys: bv64, pattr: bv64)
    requires phys & !ADDR == 0 && OnlyAttr(pattr)
    ensures IsValid(MapLeaf(phys, pattr)) && !IsBlock(MapLeaf(phys, pattr))
  {}

  lemma MapLeafAp(phys: bv64, pattr: bv64)
    requires phys & !ADDR == 0 && OnlyAttr(pattr)
    ensures ApOf(MapLeaf(phys, pattr)) == ApOf(pattr)
  {}

  lemma MapLeafFrame(phys: bv64, pattr: bv64)
    requires phys & !ADDR == 0 && OnlyAttr(pattr)
    ensures FrameBits(MapLeaf(phys, pattr)) == FrameBits(phys)
  {}

  lemma MapLeafRefs(phys: bv64, pattr: bv64)
    requires phys & !ADDR == 0 && OnlyAttr(pattr)
    ensures RefBits(MapLeaf(phys, pattr)) == 0
  {}

  lemma MapLeafRest(phys: bv64, pattr: bv64)
    requires phys & !ADDR == 0 && OnlyAttr(pattr)
    ensures RestBits(MapLeaf(phys, pattr)) == (pattr & !AP_MASK) | AF_SET
  {}

  lemma MapLeafSplit(phys: bv64, pattr: bv64)
    requires phys & !ADDR == 0 && OnlyAttr(pattr)
    ensures Split(MapLeaf(phys, pattr)) ==
            Bits(true, true, ApOf(pattr), Split(phys).frame, 0, (pattr & !AP_MASK) | AF_SET)
  {
    MapLeafFlags(phys, pattr);
    MapLeafAp(phys, pattr);
    MapLeafFrame(phys, pattr);
    MapLeafRefs(phys, pattr);
    MapLeafRest(phys, pattr);
  }

  lemma LinkIsLeaf(phys: bv64)
    ensures LinkTable(phys) == MapLeaf(phys, 0)
    ensures OnlyAttr(0) && ApOf(0) == NaRw && (0 & !AP_MASK) | AF_SET == AF_SET
  {}

  lemma LinkTableFields(phys: bv64)
    requires phys & !ADDR == 0
    ensures Unpack(LinkTable(phys)) == TableWord(FrameOf(phys))
  {
    LinkIsLeaf(phys);
    MapLeafSplit(phys, 0);
  }

  lemma PageAttrBits(perm: Perm, attr: Attr)
    requires perm != NoPerm
    ensures var pattr := PageAttr(perm, attr);
            && OnlyAttr(pattr)
            && ApOf(pattr) == (if perm == MemRw then RwRw else RoRo)
            && (pattr & !AP_MASK) | AF_SET == LeafWord(0, perm, attr).rest
  {}

  lemma MapLeafFields(phys: bv64, perm: Perm, attr: Attr)
    requires phys & !ADDR == 0 && perm != NoPerm
    ensures Unpack(MapLeaf(phys, PageAttr(perm, attr))) == LeafWord(FrameOf(phys), perm, attr)
  {
    PageAttrBits(perm, attr);
    MapLeafSplit(phys, PageAttr(perm, attr));
  }

  lemma KernelAttrBits(perm: Perm)
    requires perm != NoPerm
    ensures var pattr := KernelAttr(perm);
            && OnlyAttr(pattr)
            && ApOf(pattr) == (if perm == MemRw then NaRw else NaRo)
            && (pattr & !AP_MASK) | AF_SET == KernelLeaf(0, perm).rest
  {}

  lemma KernelLeafFields(phys: bv64, perm: Perm)
    requires phys & !ADDR == 0 && perm != NoPerm
    ensures Unpack(MapLeaf(phys, KernelAttr(perm))) == KernelLeaf(FrameOf(phys), perm)
  {
    KernelAttrBits(perm);
    MapLeafSplit(phys, KernelAttr(perm));
  }

  // ---------------------------------------------------------------- where the fields are

  lemma FlagPlaces(e: bv64)
    ensures (IsValid(e) <==> e & 1 != 0) && (IsBlock(e) <==> e & 2 == 0)
  {}

  lemma ApPlaces(e: bv64)
    ensures ApOf(e) == NaRw <==> e & 0xc0 == 0
    ensures ApOf(e) == RwRw <==> e & 0xc0 == 0x40
    ensures ApOf(e) == NaRo <==> e & 0xc0 == 0x80
    ensures ApOf(e) == RoRo <==> e & 0xc0 == 0xc0
  {}

  lemma FramePlaces(e: bv64)
    ensures FrameBits(e) as bv64 << 12 == e & 0x0000_ffff_ffff_f000
  {}

  lemma RefPlaces(e: bv64)
    ensures RefBits(e) as bv64 << 55 == e & 0x0780_0000_0000_0000
  {}

  lemma RestPlaces(e: bv64)
    ensures RestBits(e) == e & 0xf87f_0000_0000_0f3c
    ensures UserRuns(Unpack(e)) <==> e & (1 << 54) == 0
    ensures KernelRuns(Unpack(e)) <==> e & (1 << 53) == 0
    ensures NormalMemory(Unpack(e)) <==> e & (1 << 5) != 0
  {}

  /** Which bits of a descriptor the fields are: 0 and 1 the flags, 6 and 7 the access rights, 12 to 47 the page,
      55 to 58 the counter; the execute-never bits and the memory type are among the rest. */
  lemma FieldPlaces(e: bv64)
    ensures var b := Split(e);
            && (b.valid <==> e & 1 != 0) && (b.page <==> e & 2 != 0)
            && (b.ap == RwRw <==> e & 0xc0 == 0x40) && (b.ap == RoRo <==> e & 0xc0 == 0xc0)
            && (b.ap == NaRw <==> e & 0xc0 == 0) && (b.ap == NaRo <==> e & 0xc0 == 0x80)
            && b.frame as bv64 << 12 == e & 0x0000_ffff_ffff_f000
            && b.refs as bv64 << 55 == e & 0x0780_0000_0000_0000
            && b.rest == e & 0xf87f_0000_0000_0f3c
    ensures (UserRuns(Unpack(e)) <==> e & (1 << 54) == 0) && (KernelRuns(Unpack(e)) <==> e & (1 << 53) == 0)
    ensures NormalMemory(Unpack(e)) <==> e & (1 << 5) != 0
  {
    FlagPlaces(e);
    ApPlaces(e);
    FramePlaces(e);
    RefPlaces(e);
    RestPlaces(e);
  }

  /** The descriptor of a user page, bit by bit: only MEM_EX leaves the user's execute-never bit clear, the
      kernel's is always set, only MEM_RW lets users write. */
  lemma LeafBits(phys: bv64, perm: Perm, attr: Attr)
    requires phys & !0x0000_ffff_ffff_f000 == 0 && perm != NoPerm
    ensures var e := MapLeaf(phys, PageAttr(perm, attr));
            && (e & (1 << 54) == 0 <==> perm == MemEx) && e & (1 << 53) != 0
            && (e >> 6) & 3 == (if perm == MemRw then 1 else 3)
            && (e & (1 << 5) != 0 <==> attr == MemNorm) && e & (1 << 10) != 0
            && e & 3 == 3 && e & 0x0000_ffff_ffff_f000 == phys && (e >> 55) & 0xf == 0
  {
    PageAttrBits(perm, attr);
  }

  /** The descriptor of a kernel page: users have no access, and only MEM_EX lets the kernel run it. */
  lemma KernelBits(phys: bv64, perm: Perm)
    requires phys & !0x0000_ffff_ffff_f000 == 0 && perm != NoPerm
    ensures var e := MapLeaf(phys, KernelAttr(perm));
            && (e & (1 << 53) == 0 <==> perm == MemEx) && e & (1 << 54) != 0
            && (e >> 6) & 3 == (if perm == MemRw then 0 else 2)
            && e & (1 << 5) != 0 && e & (1 << 10) != 0
            && e & 3 == 3 && e & 0x0000_ffff_ffff_f000 == phys && (e >> 55) & 0xf == 0
  {
    KernelAttrBits(perm);
  }

  /** A link to a table: the bits of its address, both flags and the access flag, nothing else. */
  lemma LinkBits(phys: bv64)
    requires phys & !0x0000_ffff_ffff_f000 == 0
    ensures var e := LinkTable(phys);
            e & 0x0000_ffff_ffff_f000 == phys && e & !0x0000_ffff_ffff_f000 == 0x403
  {}

  // ---------------------------------------------------------------- what the operations do to the bits

  lemma WithRefsBits(e: bv64, r: bv64)
    requires r <= 0xf
    ensures (WithRefs(e, r) >> 55) & 0xf == r
    ensures WithRefs(e, r) & !0x0780_0000_0000_0000 == e & !0x0780_0000_0000_0000
  {}

  lemma CountUpRef(e: bv64)
    ensures (CountUp(e) >> 55) & 0xf == (if (e >> 55) & 0xf < 15 then ((e >> 55) & 0xf) + 1 else 15)
  {
    var r := (e >> 55) & 0xf;
    if r < 15 {
      RefUpBits(r);
      WithRefsBits(e, r + 1);
    }
  }

  lemma CountUpRest(e: bv64)
    ensures CountUp(e) & !0x0780_0000_0000_0000 == e & !0x0780_0000_0000_0000
  {
    OneMore((e >> 55) & 0xf);
    RefTaken(e, CountUp(e), ((e >> 55) & 0xf) + 1);
  }

  lemma OneMore(r: bv64)
    ensures r < 15 ==> r + 1 <= 0xf
    ensures 0 < r <= 0xf ==> r - 1 <= 0xf
  {}

  /** A counter replaced, or nothing. */
  lemma RefTaken(e: bv64, f: bv64, x: bv64)
    requires f == e || (x <= 0xf && f == WithRefs(e, x))
    ensures f & !0x0780_0000_0000_0000 == e & !0x0780_0000_0000_0000
  {
    if f != e { WithRefsBits(e, x); }
  }

  lemma TakeWriteBits(e: bv64)
    ensures (TakeWrite(e) >> 6) & 3 == (if (e >> 6) & 3 == 1 then 2 else (e >> 6) & 3)
    ensures TakeWrite(e) & !0xc0 == e & !0xc0
  {}

  /** `mmu_mark_copied` counts one more in bits 55 to 58, unless they are all set; all bits but these and the access
      bits stay.  `TakeWriteBits` says what becomes of the access. */
  lemma CopiedBits(e: bv64)
    ensures var f := CountUp(e);
            && MarkCopied(e) == TakeWrite(f)
            && (f >> 55) & 0xf == (if (e >> 55) & 0xf < 15 then ((e >> 55) & 0xf) + 1 else 15)
            && f & !0x0780_0000_0000_0000 == e & !0x0780_0000_0000_0000
  {
    CountUpRef(e);
    CountUpRest(e);
  }

  /** `mmu_mark_freed`: one less in bits 55 to 58, unless they are all clear. */
  lemma FreedRef(e: bv64)
    ensures (MarkFreed(e) >> 55) & 0xf == (if (e >> 55) & 0xf > 0 then ((e >> 55) & 0xf) - 1 else 0)
  {
    var r := (e >> 55) & 0xf;
    if r > 0 {
      RefDownBits(r);
      WithRefsBits(e, r - 1);
    }
  }

  /** All other bits stay. */
  lemma FreedRest(e: bv64)
    ensures MarkFreed(e) & !0x0780_0000_0000_0000 == e & !0x0780_0000_0000_0000
  {
    OneMore((e >> 55) & 0xf);
    RefTaken(e, MarkFreed(e), ((e >> 55) & 0xf) - 1);
  }

  /** The end of the data abort: the address and the access of users, everything else stays. */
  lemma RepointBits(e: bv64, phys: bv64)
    requires phys & !0x0000_ffff_ffff_f000 == 0
    ensures var f := Repoint(e, phys);
            && f & 0x0000_ffff_ffff_f000 == phys && (f >> 6) & 3 == 1
            && f & !0x0000_ffff_ffff_f0c0 == e & !0x0000_ffff_ffff_f0c0
  {}
}
