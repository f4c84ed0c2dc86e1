/** Loading a program (elf.c).  The image is given by the program headers and the bytes of the file; the pages
    of the new process hold bytes here, 4096 each. */
module Elf {
  import opened Options
  import opened Words
  import opened Paging
  import opened UserMap
  import opened AddressSpaces
  import Mmap

  type Byte = b: nat | b < 0x100

  function Zeros(n: nat): (s: seq<Byte>)
    ensures |s| == n
  {
    if n == 0 then [] else [0] + Zeros(n - 1)
  }

  type Bytes = s: seq<Byte> | |s| == 0x1000 witness Zeros(0x1000)

  const PAGESIZE: nat := 0x1000
  const TWO64: nat := 0x1_0000_0000_0000_0000
  const USER_END: nat := 0x1_0000_0000_0000   // end of the addresses a user table translates

  /** The fields of `struct elf64_phdr` that the loader reads. */
  datatype Phdr = Phdr(load: bool, flags: nat, offset: nat, vaddr: nat, filesz: nat)

  function PermOf(flags: nat): Perm {
    if flags == 4 then MemRo else if flags == 5 then MemEx else if flags == 6 then MemRw else NoPerm
  }

  const PF_X: nat := 1
  const PF_W: nat := 2
  const PF_R: nat := 4

  /** The access modes a loaded segment can have: read, read and run, read and write. */
  predicate FlagsOk(flags: nat) { flags == PF_R || flags == PF_R + PF_X || flags == PF_R + PF_W }

  /** A page that can be used as the flags say: always read, written with PF_W, run with PF_X. */
  predicate Granted(w: Word, flags: nat) {
    && UserReads(w) && (UserWrites(w) <==> flags / 2 % 2 == 1) && (UserRuns(w) <==> flags % 2 == 1)
    && !KernelRuns(w) && NormalMemory(w) && w.refs == 0
  }

  /** The permission the loader asks for grants what the flags say; it refuses all other flags. */
  lemma PermGrants(flags: nat, f: FrameNo)
    ensures PermOf(flags) == NoPerm <==> !FlagsOk(flags)
    ensures PermOf(flags) != NoPerm ==> Granted(LeafWord(f, PermOf(flags), MemNorm), flags)
  {
    if PermOf(flags) != NoPerm { LeafRights(f, PermOf(flags), MemNorm); }
  }

  /** A segment lies below the end of user addresses, and its bytes in the file. */
  predicate Sane(p: Phdr, file: seq<Byte>) {
    p.load ==> p.vaddr + p.filesz <= USER_END && p.offset + p.filesz <= |file|
  }

  /** Page `n` is one of the pages the loader maps for segment `p`. */
  predicate Covers(p: Phdr, n: nat) {
    p.load && p.vaddr / PAGESIZE <= n && n * PAGESIZE < p.vaddr + p.filesz
  }

  /** The page of the stack, below the image of the first segment. */
  function StackPage(first: Phdr): nat {
    (first.vaddr - first.offset - PAGESIZE) % TWO64 / PAGESIZE
  }

  /** The pages of a loaded segment are those that hold a byte of it; an empty segment gets a page all the same
      if it does not start at a page boundary. */
  lemma CoversIff(p: Phdr, n: nat)
    requires p.load
    ensures Covers(p, n) <==>
      || (exists a: nat :: p.vaddr <= a < p.vaddr + p.filesz && a / PAGESIZE == n)
      || (p.filesz == 0 && p.vaddr % PAGESIZE != 0 && n == p.vaddr / PAGESIZE)
  {
    if Covers(p, n) && p.filesz > 0 {
      var a := if n * PAGESIZE > p.vaddr then n * PAGESIZE else p.vaddr;
      assert p.vaddr <= a < p.vaddr + p.filesz && a / PAGESIZE == n;
    }
  }

  /** The stack lies right below the page where the file would start. */
  lemma StackBelow(first: Phdr)
    requires first.offset + PAGESIZE <= first.vaddr < TWO64
    ensures StackPage(first) + 1 == (first.vaddr - first.offset) / PAGESIZE
  {}

  type Leaves = map<Path, Word>

  /** The user tables hold `leaves` and, elsewhere, what they held in `m0`. */
  ghost predicate Image(m0: Mem, m: Mem, root: FrameNo, leaves: Leaves) {
    forall q: Path :: |q| == 4 ==>
      LeafAt(m, root, q) == if q in leaves then Some(leaves[q]) else LeafAt(m0, root, q)
  }

  /** Every mapped page has a frame of its own. */
  ghost predicate OwnFrames(leaves: Leaves, data: map<FrameNo, Bytes>, m: Mem) {
    && (forall q :: q in leaves ==> leaves[q].frame in data)
    && (forall p, q :: p in leaves && q in leaves && p != q ==> leaves[p].frame != leaves[q].frame)
    && (forall f :: f in data ==> f in m)
  }

  /** Byte `a - p.vaddr` of segment `p` can be read at address `a`, with the permissions of the segment. */
  ghost predicate Holds(p: Phdr, file: seq<Byte>, leaves: Leaves, data: map<FrameNo, Bytes>, a: nat)
    requires p.vaddr <= a && p.offset + (a - p.vaddr) < |file| && PermOf(p.flags) != NoPerm
  {
    var q := PathOf(a / PAGESIZE);
    && q in leaves && leaves[q].frame in data
    && leaves[q] == LeafWord(leaves[q].frame, PermOf(p.flags), MemNorm)
    && data[leaves[q].frame][a % PAGESIZE] == file[p.offset + (a - p.vaddr)]
  }

  /** Page `n` of segment `p` is mapped, with the rights the flags of the segment ask for. */
  ghost predicate PageGranted(p: Phdr, leaves: Leaves, n: nat) {
    PathOf(n) in leaves && Granted(leaves[PathOf(n)], p.flags)
  }

  /** The bytes of `p` in pages before page `n` are in place. */
  ghost predicate LoadedTo(p: Phdr, file: seq<Byte>, leaves: Leaves, data: map<FrameNo, Bytes>, n: nat)
    requires p.load && Sane(p, file) && PermOf(p.flags) != NoPerm
  {
    && (forall a: nat :: p.vaddr <= a < p.vaddr + p.filesz && a / PAGESIZE < n ==> Holds(p, file, leaves, data, a))
    && (forall m: nat :: Covers(p, m) && m < n ==> PageGranted(p, leaves, m))
  }

  /** The whole segment is in place. */
  ghost predicate Loaded(p: Phdr, file: seq<Byte>, leaves: Leaves, data: map<FrameNo, Bytes>)
    requires Sane(p, file)
  {
    p.load ==>
      && PermOf(p.flags) != NoPerm
      && (forall a: nat :: p.vaddr <= a < p.vaddr + p.filesz ==> Holds(p, file, leaves, data, a))
      && (forall n: nat :: Covers(p, n) ==> PageGranted(p, leaves, n))
  }

  /** More pages and other bytes elsewhere do not disturb what is in place. */
  ghost predicate Extends(leaves: Leaves, data: map<FrameNo, Bytes>, leaves': Leaves, data': map<FrameNo, Bytes>) {
    && (forall q :: q in leaves ==> q in leaves' && leaves'[q] == leaves[q])
    && (forall q :: q in leaves && leaves[q].frame in data ==>
          leaves[q].frame in data' && data'[leaves[q].frame] == data[leaves[q].frame])
  }

  lemma KeepLoaded(p: Phdr, file: seq<Byte>, leaves: Leaves, data: map<FrameNo, Bytes>, leaves': Leaves,
                   data': map<FrameNo, Bytes>)
    requires Sane(p, file) && Loaded(p, file, leaves, data) && Extends(leaves, data, leaves', data')
    ensures Loaded(p, file, leaves', data')
  {
    if p.load {
      forall a: nat | p.vaddr <= a < p.vaddr + p.filesz
        ensures Holds(p, file, leaves', data', a)
      {
        assert Holds(p, file, leaves, data, a);
      }
      assert forall n: nat :: Covers(p, n) ==> PageGranted(p, leaves, n);
    }
  }

  lemma KeepLoadedTo(p: Phdr, file: seq<Byte>, leaves: Leaves, data: map<FrameNo, Bytes>, leaves': Leaves,
                     data': map<FrameNo, Bytes>, n: nat)
    requires p.load && Sane(p, file) && PermOf(p.flags) != NoPerm && LoadedTo(p, file, leaves, data, n)
    requires Extends(leaves, data, leaves', data')
    ensures LoadedTo(p, file, leaves', data', n)
  {
    forall a: nat | p.vaddr <= a < p.vaddr + p.filesz && a / PAGESIZE < n
      ensures Holds(p, file, leaves', data', a)
    {
      assert Holds(p, file, leaves, data, a);
    }
    assert forall m: nat :: Covers(p, m) && m < n ==> PageGranted(p, leaves, m);
  }

  /** The bytes the loader copies into page `n` of segment `p`, whose old contents are `was`. */
  function FilledPage(p: Phdr, file: seq<Byte>, n: nat, was: Bytes): (r: Bytes)
    requires Covers(p, n) && Sane(p, file)
  {
    var start := if n * PAGESIZE > p.vaddr then n * PAGESIZE else p.vaddr;
    var end := if n * PAGESIZE + PAGESIZE < p.vaddr + p.filesz then n * PAGESIZE + PAGESIZE else p.vaddr + p.filesz;
    var to := start % PAGESIZE;
    var from := p.offset + start - p.vaddr;
    assert start / PAGESIZE == n && start <= end;
    was[..to] + file[from..from + (end - start)] + was[to + (end - start)..]
  }

  lemma FilledByte(p: Phdr, file: seq<Byte>, n: nat, was: Bytes, a: nat)
    requires Covers(p, n) && Sane(p, file) && p.vaddr <= a < p.vaddr + p.filesz && a / PAGESIZE == n
    ensures FilledPage(p, file, n, was)[a % PAGESIZE] == file[p.offset + (a - p.vaddr)]
  {
  }

  /** The rest of the page keeps what was there. */
  lemma FilledOther(p: Phdr, file: seq<Byte>, n: nat, was: Bytes, k: nat)
    requires Covers(p, n) && Sane(p, file) && k < PAGESIZE
    requires n * PAGESIZE + k < p.vaddr || p.vaddr + p.filesz <= n * PAGESIZE + k
    ensures FilledPage(p, file, n, was)[k] == was[k]
  {
    var start := if n * PAGESIZE > p.vaddr then n * PAGESIZE else p.vaddr;
    assert start / PAGESIZE == n && (k < start % PAGESIZE || p.vaddr + p.filesz <= n * PAGESIZE + k);
  }

  /** Once page `n` is mapped and filled, the segment is in place one page further. */
  lemma PageLoaded(p: Phdr, file: seq<Byte>, leaves: Leaves, data: map<FrameNo, Bytes>, n: nat, f: FrameNo, was: Bytes)
    requires Covers(p, n) && Sane(p, file) && PermOf(p.flags) != NoPerm && LoadedTo(p, file, leaves, data, n)
    requires PathOf(n) in leaves && leaves[PathOf(n)] == LeafWord(f, PermOf(p.flags), MemNorm)
    requires f in data && data[f] == FilledPage(p, file, n, was)
    ensures LoadedTo(p, file, leaves, data, n + 1)
  {
    forall a: nat | p.vaddr <= a < p.vaddr + p.filesz && a / PAGESIZE < n + 1
      ensures Holds(p, file, leaves, data, a)
    {
      if a / PAGESIZE == n { FilledByte(p, file, n, was, a); }
    }
    PermGrants(p.flags, f);
    forall m: nat | Covers(p, m) && m < n + 1
      ensures PageGranted(p, leaves, m)
    {
      assert m < n || m == n;
    }
  }

  // ---------------------------------------------------------------- one page

  lemma ImageAllocated(m0: Mem, s: Spaces, contents: Page, root: FrameNo, leaves: Leaves)
    requires TreeShape(s) && root in s.roots && s.avail != [] && Image(m0, s.mem, root, leaves)
    ensures TreeShape(Allocated(s, contents)) && Image(m0, Allocated(s, contents).mem, root, leaves)
  {
    AllocatedShape(s, contents);
    forall q: Path | |q| == 4
      ensures LeafAt(Allocated(s, contents).mem, root, q) == LeafAt(s.mem, root, q)
    {
      Mmap.AllocatedLeaf(s, contents, root, q);
    }
  }

  lemma ImageMapped(m0: Mem, s: Spaces, root: FrameNo, leaves: Leaves, va: Path, leaf: Word)
    requires TreeShape(s) && root in s.roots && Image(m0, s.mem, root, leaves)
    requires |va| == 4 && leaf.valid && leaf.page
    ensures var out := MapBelow(s, root, va, leaf);
            && TreeShape(out.s) && out.s.roots == s.roots
            && (out.Exists? <==> va in leaves || LeafAt(m0, root, va).Some?)
            && (out.Mapped? ==> Image(m0, out.s.mem, root, leaves[va := leaf]) && s.mem.Keys <= out.s.mem.Keys)
  {
    var out := MapBelow(s, root, va, leaf);
    LeafWalk(s.mem, root, va);
    MapPageFlat(s, root, va, leaf, root, va);
    forall q: Path | |q| == 4 && out.Mapped?
      ensures LeafAt(out.s.mem, root, q) == if q == va then Some(leaf) else LeafAt(s.mem, root, q)
    {
      MapPageFlat(s, root, va, leaf, root, q);
    }
    if out.Mapped? { Mmap.FramesStay(s, root, va, leaf); }
  }

  // ---------------------------------------------------------------- which pages

  ghost predicate InSegment(p: Phdr, q: Path) { exists n: nat :: Covers(p, n) && PathOf(n) == q }

  /** The pages of `p` before page `n`. */
  ghost predicate InSegmentTo(p: Phdr, q: Path, n: nat) { exists m: nat :: Covers(p, m) && m < n && PathOf(m) == q }

  lemma SamePage(p: Phdr, file: seq<Byte>, m: nat, n: nat)
    requires Sane(p, file) && Covers(p, m) && Covers(p, n) && PathOf(m) == PathOf(n)
    ensures m == n
  {
    LowPage(p, file, m);
    LowPage(p, file, n);
    SameNumber(m, n);
  }

  lemma LowPage(p: Phdr, file: seq<Byte>, n: nat)
    requires Sane(p, file) && Covers(p, n)
    ensures n < 0x10_0000_0000
  {}

  lemma SameNumber(m: nat, n: nat)
    requires m < 0x10_0000_0000 && n < 0x10_0000_0000 && PathOf(m) == PathOf(n)
    ensures m == n
  {
    PageOfPath(m);
    PageOfPath(n);
    LowMod(m);
    LowMod(n);
  }

  lemma LowMod(n: nat)
    requires n < 0x10_0000_0000
    ensures n % 0x10_0000_0000 == n
  {}

  /** Page `n` is in the way: mapped before the program is loaded, or by an earlier part of the image. */
  ghost predicate Taken(m0: Mem, root: FrameNo, leaves: Leaves, n: nat) {
    PathOf(n) in leaves || LeafAt(m0, root, PathOf(n)).Some?
  }

  ghost predicate SegmentTaken(p: Phdr, m0: Mem, root: FrameNo, leaves: Leaves) {
    exists n: nat :: Covers(p, n) && Taken(m0, root, leaves, n)
  }

  /** Segment `p` has been added to what was mapped before. */
  ghost predicate SegmentIn(p: Phdr, file: seq<Byte>, m0: Mem, root: FrameNo, leaves: Leaves, d: map<FrameNo, Bytes>,
                            leaves': Leaves, d': map<FrameNo, Bytes>)
    requires Sane(p, file)
  {
    && !SegmentTaken(p, m0, root, leaves)
    && (forall q :: q in leaves' <==> q in leaves || InSegment(p, q))
    && Extends(leaves, d, leaves', d') && Loaded(p, file, leaves', d')
  }

  /** Two parts of the image share a page, or a page of the image is mapped already. */
  ghost predicate Clash(m0: Mem, root: FrameNo, stack: nat, phdrs: seq<Phdr>, count: nat)
    requires count <= |phdrs|
  {
    || LeafAt(m0, root, PathOf(stack)).Some?
    || exists i: nat, n: nat :: i < count && Covers(phdrs[i], n)
         && (LeafAt(m0, root, PathOf(n)).Some? || PathOf(n) == PathOf(stack)
             || exists j: nat :: j < i && InSegment(phdrs[j], PathOf(n)))
  }

  /** What is mapped after the first `count` segments. */
  ghost predicate KeysAre(leaves: Leaves, stack: nat, phdrs: seq<Phdr>, count: nat)
    requires count <= |phdrs|
  {
    forall q :: q in leaves <==> q == PathOf(stack) || exists j: nat :: j < count && InSegment(phdrs[j], q)
  }

  /** The address of the stack, ERR_ELF_INV, or an error of the memory management. */
  datatype ImageResult = Created(stack: nat) | Invalid | Refused(err: Err)

  /** What the segment loop has done when it comes to segment `count`. */
  ghost predicate Done(m0: Mem, root: FrameNo, stack: nat, phdrs: seq<Phdr>, count: nat, file: seq<Byte>,
                       leaves: Leaves, data: map<FrameNo, Bytes>)
    requires count <= |phdrs| && forall i :: 0 <= i < count ==> Sane(phdrs[i], file)
  {
    && (forall i :: 0 <= i < count ==> Loaded(phdrs[i], file, leaves, data))
    && KeysAre(leaves, stack, phdrs, count) && !Clash(m0, root, stack, phdrs, count)
  }

  lemma SegmentSkipped(m0: Mem, root: FrameNo, stack: nat, phdrs: seq<Phdr>, i: nat, file: seq<Byte>,
                       leaves: Leaves, data: map<FrameNo, Bytes>)
    requires i < |phdrs| && (forall k :: 0 <= k <= i ==> Sane(phdrs[k], file)) && !phdrs[i].load
    requires Done(m0, root, stack, phdrs, i, file, leaves, data)
    ensures Done(m0, root, stack, phdrs, i + 1, file, leaves, data)
  {
    assert forall q :: !InSegment(phdrs[i], q);
    SegmentKeys(stack, phdrs, i, leaves, leaves);
    SegmentApart(m0, root, stack, phdrs, i, leaves);
  }

  lemma SegmentClash(m0: Mem, root: FrameNo, stack: nat, phdrs: seq<Phdr>, i: nat, count: nat, file: seq<Byte>,
                     leaves: Leaves, data: map<FrameNo, Bytes>)
    requires i < count <= |phdrs| && forall k :: 0 <= k < count ==> Sane(phdrs[k], file)
    requires Done(m0, root, stack, phdrs, i, file, leaves, data)
    requires SegmentTaken(phdrs[i], m0, root, leaves)
    ensures Clash(m0, root, stack, phdrs, count)
  {
    var n: nat :| Covers(phdrs[i], n) && Taken(m0, root, leaves, n);
    if PathOf(n) in leaves && PathOf(n) != PathOf(stack) {
      var j: nat :| j < i && InSegment(phdrs[j], PathOf(n));
    }
  }

  lemma SegmentDone(m0: Mem, root: FrameNo, stack: nat, phdrs: seq<Phdr>, i: nat, file: seq<Byte>,
                    leaves: Leaves, data: map<FrameNo, Bytes>, leaves': Leaves, data': map<FrameNo, Bytes>)
    requires i < |phdrs| && forall k :: 0 <= k <= i ==> Sane(phdrs[k], file)
    requires Done(m0, root, stack, phdrs, i, file, leaves, data)
    requires SegmentIn(phdrs[i], file, m0, root, leaves, data, leaves', data')
    ensures Done(m0, root, stack, phdrs, i + 1, file, leaves', data')
  {
    forall k | 0 <= k < i + 1
      ensures Loaded(phdrs[k], file, leaves', data')
    {
      if k < i { KeepLoaded(phdrs[k], file, leaves, data, leaves', data'); }
    }
    SegmentKeys(stack, phdrs, i, leaves, leaves');
    SegmentApart(m0, root, stack, phdrs, i, leaves);
  }

  lemma SegmentKeys(stack: nat, phdrs: seq<Phdr>, i: nat, leaves: Leaves, leaves': Leaves)
    requires i < |phdrs| && KeysAre(leaves, stack, phdrs, i)
    requires forall q :: q in leaves' <==> q in leaves || InSegment(phdrs[i], q)
    ensures KeysAre(leaves', stack, phdrs, i + 1)
  {
    forall q
      ensures q in leaves' <==> q == PathOf(stack) || exists j: nat :: j < i + 1 && InSegment(phdrs[j], q)
    {
      if j: nat :| j < i + 1 && InSegment(phdrs[j], q) {
        assert j < i || j == i;
      }
    }
  }

  lemma SegmentApart(m0: Mem, root: FrameNo, stack: nat, phdrs: seq<Phdr>, i: nat, leaves: Leaves)
    requires i < |phdrs| && KeysAre(leaves, stack, phdrs, i) && !Clash(m0, root, stack, phdrs, i)
    requires forall n: nat :: Covers(phdrs[i], n) ==> !Taken(m0, root, leaves, n)
    ensures !Clash(m0, root, stack, phdrs, i + 1)
  {
    forall k: nat, n: nat | k < i + 1 && Covers(phdrs[k], n)
      ensures LeafAt(m0, root, PathOf(n)).None? && PathOf(n) != PathOf(stack)
      ensures !exists j: nat :: j < k && InSegment(phdrs[j], PathOf(n))
    {
      if k == i { assert !Taken(m0, root, leaves, n); }
    }
  }

  /** What is left when a mapping ran out of memory, whatever was given back. */
  lemma StillFew(s: Spaces, root: FrameNo, va: Path, leaf: Word, avail: seq<FrameNo>)
    requires root in s.place && |va| == 4 && MapBelow(s, root, va, leaf).OutOfMemory?
    requires multiset(avail) == multiset(s.avail)
    ensures |avail| <= 2
  {
    Mmap.OutOfMemoryCount(s, root, va, leaf);
    assert |multiset(avail)| == |multiset(s.avail)|;
  }

  /** Users read and write the page of the stack, and cannot run it. */
  ghost predicate StackGranted(leaves: Leaves, stack: nat) {
    PathOf(stack) in leaves && Granted(leaves[PathOf(stack)], PF_R + PF_W)
  }

  /** Only segments with the three access modes are loaded. */
  lemma FlagsOfAll(phdrs: seq<Phdr>, count: nat, file: seq<Byte>, leaves: Leaves, data: map<FrameNo, Bytes>)
    requires count <= |phdrs| && forall i :: 0 <= i < count ==> Sane(phdrs[i], file)
    requires forall i :: 0 <= i < count ==> Loaded(phdrs[i], file, leaves, data)
    ensures forall i :: 0 <= i < count && phdrs[i].load ==> FlagsOk(phdrs[i].flags)
  {
    forall i | 0 <= i < count && phdrs[i].load
      ensures FlagsOk(phdrs[i].flags)
    {
      PermGrants(phdrs[i].flags, 0);
    }
  }

  class Loader {
    const tables: UserTables
    /** The pages handed out as data. */
    var data: map<FrameNo, Bytes>

    constructor (tables: UserTables)
      ensures this.tables == tables && data == map[]
    {
      this.tables, data := tables, map[];
    }

    ghost predicate Loading(root: FrameNo, m0: Mem, leaves: Leaves)
      reads this, tables
    {
      && TreeShape(tables.S()) && root in tables.roots
      && Image(m0, tables.mem, root, leaves) && OwnFrames(leaves, data, tables.mem)
    }

    /** A fresh page, with whatever it contains. */
    method AllocData(root: FrameNo, ghost m0: Mem, ghost leaves: Leaves) returns (got: Option<FrameNo>)
      requires Loading(root, m0, leaves)
      modifies this`data, tables
      ensures Loading(root, m0, leaves)
      ensures got.None? ==> data == old(data) && tables.avail == []
      ensures got.Some? ==> got.value !in old(data) && got.value in data && data == old(data)[got.value := data[got.value]]
    {
      ghost var s0 := tables.S();
      got := tables.AllocPage();
      if got.Some? {
        var contents: Bytes := *;
        ImageAllocated(m0, s0, tables.mem[got.value], root, leaves);
        assert got.value !in s0.mem;
        data := data[got.value := contents];
      }
    }

    /** Data page `f` mapped at `va`. */
    method MapData(root: FrameNo, va: Path, f: FrameNo, perm: Perm, ghost m0: Mem, ghost leaves: Leaves) returns (err: Err)
      requires Loading(root, m0, leaves) && |va| == 4 && perm != NoPerm && f in data
      requires forall q :: q in leaves ==> leaves[q].frame != f
      modifies tables
      ensures err == ErrOk || err == ErrExs || err == ErrOom
      ensures err == ErrExs ==> va in leaves || LeafAt(m0, root, va).Some?
      ensures err == ErrOom ==> |tables.avail| <= 2
      ensures err == ErrOk ==>
        va !in leaves && LeafAt(m0, root, va).None? && Loading(root, m0, leaves[va := LeafWord(f, perm, MemNorm)])
    {
      ghost var s := tables.S();
      ImageMapped(m0, s, root, leaves, va, LeafWord(f, perm, MemNorm));
      err := tables.MapPage(root, va, f, perm, MemNorm);
      if err == ErrOom { StillFew(s, root, va, LeafWord(f, perm, MemNorm), tables.avail); }
    }

    /** A fresh page mapped at `va`. */
    method AddPage(root: FrameNo, va: Path, perm: Perm, ghost m0: Mem, ghost leaves: Leaves)
      returns (err: Err, f: FrameNo)
      requires Loading(root, m0, leaves) && |va| == 4 && perm != NoPerm
      modifies this`data, tables
      ensures err == ErrOk || err == ErrExs || err == ErrOom
      ensures err == ErrExs ==> va in leaves || LeafAt(m0, root, va).Some?
      ensures err == ErrOom ==> |tables.avail| <= 2
      ensures err == ErrOk ==>
        && va !in leaves && LeafAt(m0, root, va).None? && f !in old(data) && f in data
        && data == old(data)[f := data[f]]
        && Loading(root, m0, leaves[va := LeafWord(f, perm, MemNorm)])
    {
      var got := AllocData(root, m0, leaves);
      if got.None? { return ErrOom, 0; }
      f := got.value;
      err := MapData(root, va, f, perm, m0, leaves);
    }

    /** The body of the page loop: page `n` of segment `p` is mapped and filled from the file. */
    method LoadPage(root: FrameNo, p: Phdr, file: seq<Byte>, n: nat, perm: Perm, ghost m0: Mem, ghost leaves: Leaves)
      returns (err: Err, ghost leaves': Leaves)
      requires Loading(root, m0, leaves) && Sane(p, file) && Covers(p, n) && perm == PermOf(p.flags) != NoPerm
      requires LoadedTo(p, file, leaves, data, n)
      modifies this`data, tables
      ensures err == ErrOk || err == ErrExs || err == ErrOom
      ensures err == ErrExs ==> PathOf(n) in leaves || LeafAt(m0, root, PathOf(n)).Some?
      ensures err == ErrOom ==> |tables.avail| <= 2
      ensures err == ErrOk ==>
        && PathOf(n) !in leaves && LeafAt(m0, root, PathOf(n)).None?
        && leaves'.Keys == leaves.Keys + {PathOf(n)}
        && Loading(root, m0, leaves') && Extends(leaves, old(data), leaves', data)
        && LoadedTo(p, file, leaves', data, n + 1)
    {
      var f;
      err, f := AddPage(root, PathOf(n), perm, m0, leaves);
      leaves' := leaves;
      if err != ErrOk { return; }
      leaves' := leaves[PathOf(n) := LeafWord(f, perm, MemNorm)];
      ghost var d1 := data;
      CopyPage(p, file, n, f);
      StoredPage(p, file, leaves, old(data), leaves', d1, n, f);
    }

    /** The page loop: segment `p` is mapped and filled, or a page was in the way, or memory ran out. */
    method LoadSegment(root: FrameNo, p: Phdr, file: seq<Byte>, perm: Perm, ghost m0: Mem, ghost leaves: Leaves)
      returns (err: Err, ghost leaves': Leaves)
      requires Loading(root, m0, leaves) && Sane(p, file) && p.load && perm == PermOf(p.flags) != NoPerm
      modifies this`data, tables
      ensures err == ErrOk || err == ErrExs || err == ErrOom
      ensures err == ErrExs ==> SegmentTaken(p, m0, root, leaves)
      ensures err == ErrOom ==> |tables.avail| <= 2
      ensures err == ErrOk ==> Loading(root, m0, leaves') && SegmentIn(p, file, m0, root, leaves, old(data), leaves', data)
    {
      var n := p.vaddr / PAGESIZE;
      leaves' := leaves;
      NothingLoaded(p, file, m0, root, leaves, data);
      while n * PAGESIZE < p.vaddr + p.filesz
        invariant p.vaddr / PAGESIZE <= n && Loading(root, m0, leaves')
        invariant Progress(p, file, m0, root, leaves, old(data), leaves', data, n)
        decreases p.vaddr + p.filesz - n * PAGESIZE
      {
        err, leaves' := LoadStep(root, p, file, n, perm, m0, leaves, old(data), leaves');
        if err != ErrOk { return; }
        n := n + 1;
      }
      AllLoaded(p, file, m0, root, leaves, old(data), leaves', data, n);
      return ErrOk, leaves';
    }

    /** One turn of the page loop. */
    method LoadStep(root: FrameNo, p: Phdr, file: seq<Byte>, n: nat, perm: Perm, ghost m0: Mem, ghost leaves: Leaves,
                    ghost d: map<FrameNo, Bytes>, ghost was: Leaves)
      returns (err: Err, ghost leaves': Leaves)
      requires Loading(root, m0, was) && Sane(p, file) && Covers(p, n) && perm == PermOf(p.flags) != NoPerm
      requires Progress(p, file, m0, root, leaves, d, was, data, n)
      modifies this`data, tables
      ensures err == ErrOk || err == ErrExs || err == ErrOom
      ensures err == ErrExs ==> SegmentTaken(p, m0, root, leaves)
      ensures err == ErrOom ==> |tables.avail| <= 2
      ensures err == ErrOk ==> Loading(root, m0, leaves') && Progress(p, file, m0, root, leaves, d, leaves', data, n + 1)
    {
      ghost var d0 := data;
      err, leaves' := LoadPage(root, p, file, n, perm, m0, was);
      if err == ErrExs { PageTaken(p, file, m0, root, leaves, d, was, d0, n); }
      if err == ErrOk { ProgressStep(p, file, m0, root, leaves, d, was, d0, leaves', data, n); }
    }

    /** The page for the stack. */
    method AddStack(root: FrameNo, phdrs: seq<Phdr>, ghost count: nat, ghost file: seq<Byte>, ghost m0: Mem)
      returns (err: Err, stack: nat, ghost leaves: Leaves)
      requires TreeShape(tables.S()) && root in tables.roots && data == map[] && m0 == tables.mem
      requires 0 < |phdrs| && count <= |phdrs| && forall i :: 0 <= i < count ==> Sane(phdrs[i], file)
      modifies this`data, tables
      ensures err == ErrOk || err == ErrExs || err == ErrOom
      ensures err == ErrExs ==> Clash(m0, root, StackPage(phdrs[0]), phdrs, count)
      ensures err == ErrOom ==> |tables.avail| <= 2
      ensures err == ErrOk ==>
        && stack == (phdrs[0].vaddr - phdrs[0].offset - PAGESIZE) % TWO64
        && Loading(root, m0, leaves) && Done(m0, root, StackPage(phdrs[0]), phdrs, 0, file, leaves, data)
        && StackGranted(leaves, StackPage(phdrs[0]))
    {
      leaves := map[];
      stack := (phdrs[0].vaddr - phdrs[0].offset - PAGESIZE) % TWO64;
      var f;
      err, f := AddPage(root, PathOf(stack / PAGESIZE), MemRw, m0, leaves);
      leaves := map[PathOf(stack / PAGESIZE) := LeafWord(f, MemRw, MemNorm)];
      LeafRights(f, MemRw, MemNorm);
    }

    /** `elf_create_proc_image`: the program headers behind `ehdr`, of which `count` count, and the file. */
    method CreateImage(root: FrameNo, phdrs: seq<Phdr>, count: nat, file: seq<Byte>)
      returns (res: ImageResult, ghost leaves: Leaves)
      requires TreeShape(tables.S()) && root in tables.roots && data == map[]
      requires 0 < |phdrs| && count <= |phdrs| && forall i :: 0 <= i < count ==> Sane(phdrs[i], file)
      modifies this`data, tables
      ensures res.Created? ==>
        && res.stack == (phdrs[0].vaddr - phdrs[0].offset - PAGESIZE) % TWO64
        && Loading(root, old(tables.mem), leaves)
        && (forall i :: 0 <= i < count ==> Loaded(phdrs[i], file, leaves, data))
        && KeysAre(leaves, StackPage(phdrs[0]), phdrs, count)
        && !Clash(old(tables.mem), root, StackPage(phdrs[0]), phdrs, count)
      ensures res.Created? ==>
        && (forall i :: 0 <= i < count && phdrs[i].load ==> FlagsOk(phdrs[i].flags))
        && StackGranted(leaves, res.stack / PAGESIZE)
      ensures res.Invalid? ==> exists i :: 0 <= i < count && phdrs[i].load && !FlagsOk(phdrs[i].flags)
      ensures res == Refused(ErrExs) ==> Clash(old(tables.mem), root, StackPage(phdrs[0]), phdrs, count)
      ensures res.Refused? ==> res.err == ErrExs || (res.err == ErrOom && |tables.avail| <= 2)
    {
      ghost var m0, stackPage := tables.mem, StackPage(phdrs[0]);
      var err, stack;
      err, stack, leaves := AddStack(root, phdrs, count, file, m0);
      if err != ErrOk { return Refused(err), leaves; }
      for i := 0 to count
        invariant Loading(root, m0, leaves)
        invariant Done(m0, root, stackPage, phdrs, i, file, leaves, data)
        invariant StackGranted(leaves, stackPage)
      {
        var end;
        end, leaves := LoadHeader(root, phdrs, i, file, m0, stackPage, count, leaves);
        if end.Some? { return end.value, leaves; }
      }
      FlagsOfAll(phdrs, count, file, leaves, data);
      return Created(stack), leaves;
    }

    /** One turn of the loop over the program headers; a result if the loop ends here. */
    method LoadHeader(root: FrameNo, phdrs: seq<Phdr>, i: nat, file: seq<Byte>, ghost m0: Mem, ghost stackPage: nat,
                      ghost count: nat, ghost leaves: Leaves) returns (end: Option<ImageResult>, ghost leaves': Leaves)
      requires i < count <= |phdrs| && forall k :: 0 <= k < count ==> Sane(phdrs[k], file)
      requires Loading(root, m0, leaves) && Done(m0, root, stackPage, phdrs, i, file, leaves, data)
      modifies this`data, tables
      ensures end.None? ==> Loading(root, m0, leaves') && Done(m0, root, stackPage, phdrs, i + 1, file, leaves', data)
      ensures end.None? ==> forall q :: q in leaves ==> q in leaves' && leaves'[q] == leaves[q]
      ensures end.Some? ==> end.value == Invalid || end.value == Refused(ErrExs) || end.value == Refused(ErrOom)
      ensures end == Some(Invalid) ==> phdrs[i].load && !FlagsOk(phdrs[i].flags)
      ensures end == Some(Refused(ErrOom)) ==> |tables.avail| <= 2
      ensures end == Some(Refused(ErrExs)) ==> Clash(m0, root, stackPage, phdrs, count)
    {
      leaves' := leaves;
      if !phdrs[i].load {
        SegmentSkipped(m0, root, stackPage, phdrs, i, file, leaves, data);
        return None, leaves;
      }
      var perm := PermOf(phdrs[i].flags);
      PermGrants(phdrs[i].flags, 0);
      if perm == NoPerm { return Some(Invalid), leaves; }
      ghost var d0 := data;
      var err;
      err, leaves' := LoadSegment(root, phdrs[i], file, perm, m0, leaves);
      if err != ErrOk {
        if err == ErrExs { SegmentClash(m0, root, stackPage, phdrs, i, count, file, leaves, d0); }
        return Some(Refused(err)), leaves';
      }
      SegmentDone(m0, root, stackPage, phdrs, i, file, leaves, d0, leaves', data);
      return None, leaves';
    }

    /** The copy from the file into a page. */
    method CopyPage(p: Phdr, file: seq<Byte>, n: nat, f: FrameNo)
      requires Sane(p, file) && Covers(p, n) && f in data
      modifies this`data
      ensures data == old(data)[f := FilledPage(p, file, n, old(data)[f])]
    {
      var vaddr, vaddrEnd := n * PAGESIZE, p.vaddr + p.filesz;
      var dataStart := if vaddr > p.vaddr then vaddr else p.vaddr;
      var dataEnd := if vaddr + PAGESIZE < vaddrEnd then vaddr + PAGESIZE else vaddrEnd;
      var fileOffset := p.offset + dataStart - p.vaddr;
      var pageOffset := dataStart % PAGESIZE;
      assert dataStart / PAGESIZE == n && dataStart <= dataEnd;
      data := data[f := data[f][..pageOffset] + file[fileOffset..fileOffset + (dataEnd - dataStart)]
                        + data[f][pageOffset + (dataEnd - dataStart)..]];
    }
  }

  lemma FreshPage(p: Phdr, file: seq<Byte>, n: nat)
    requires Sane(p, file) && Covers(p, n)
    ensures !InSegmentTo(p, PathOf(n), n)
  {
    if m: nat :| Covers(p, m) && m < n && PathOf(m) == PathOf(n) {
      SamePage(p, file, m, n);
    }
  }

  /** What the page loop has done when it comes to page `n`. */
  ghost predicate Progress(p: Phdr, file: seq<Byte>, m0: Mem, root: FrameNo, leaves: Leaves, d: map<FrameNo, Bytes>,
                           leaves': Leaves, d': map<FrameNo, Bytes>, n: nat)
    requires p.load && Sane(p, file) && PermOf(p.flags) != NoPerm
  {
    && Extends(leaves, d, leaves', d') && LoadedTo(p, file, leaves', d', n)
    && (forall m: nat :: Covers(p, m) && m < n ==> !Taken(m0, root, leaves, m))
    && (forall q :: q in leaves' <==> q in leaves || InSegmentTo(p, q, n))
  }

  lemma NothingLoaded(p: Phdr, file: seq<Byte>, m0: Mem, root: FrameNo, leaves: Leaves, d: map<FrameNo, Bytes>)
    requires p.load && Sane(p, file) && PermOf(p.flags) != NoPerm
    ensures Progress(p, file, m0, root, leaves, d, leaves, d, p.vaddr / PAGESIZE)
  {
    assert forall q :: !InSegmentTo(p, q, p.vaddr / PAGESIZE);
  }

  lemma ProgressStep(p: Phdr, file: seq<Byte>, m0: Mem, root: FrameNo, leaves: Leaves, d: map<FrameNo, Bytes>,
                     was: Leaves, d0: map<FrameNo, Bytes>, leaves': Leaves, d': map<FrameNo, Bytes>, n: nat)
    requires Covers(p, n) && Sane(p, file) && PermOf(p.flags) != NoPerm
    requires Progress(p, file, m0, root, leaves, d, was, d0, n)
    requires Extends(was, d0, leaves', d') && LoadedTo(p, file, leaves', d', n + 1)
    requires leaves'.Keys == was.Keys + {PathOf(n)} && PathOf(n) !in was && LeafAt(m0, root, PathOf(n)).None?
    ensures Progress(p, file, m0, root, leaves, d, leaves', d', n + 1)
  {
    ExtendsTrans(leaves, d, was, d0, leaves', d');
    forall m: nat | Covers(p, m) && m < n + 1
      ensures !Taken(m0, root, leaves, m)
    {
      assert m < n || m == n;
    }
    forall q
      ensures q in leaves' <==> q in leaves || InSegmentTo(p, q, n + 1)
    {
      if m: nat :| Covers(p, m) && m < n + 1 && PathOf(m) == q {
        assert m < n || m == n;
      }
      assert q in leaves' <==> q in was || q == PathOf(n);
    }
  }

  lemma PageTaken(p: Phdr, file: seq<Byte>, m0: Mem, root: FrameNo, leaves: Leaves, d: map<FrameNo, Bytes>,
                  was: Leaves, d0: map<FrameNo, Bytes>, n: nat)
    requires Covers(p, n) && Sane(p, file) && PermOf(p.flags) != NoPerm
    requires Progress(p, file, m0, root, leaves, d, was, d0, n) && Taken(m0, root, was, n)
    ensures SegmentTaken(p, m0, root, leaves)
  {
    FreshPage(p, file, n);
    assert Taken(m0, root, leaves, n);
  }

  lemma AllLoaded(p: Phdr, file: seq<Byte>, m0: Mem, root: FrameNo, leaves: Leaves, d: map<FrameNo, Bytes>,
                  leaves': Leaves, d': map<FrameNo, Bytes>, n: nat)
    requires p.load && Sane(p, file) && PermOf(p.flags) != NoPerm && n * PAGESIZE >= p.vaddr + p.filesz
    requires Progress(p, file, m0, root, leaves, d, leaves', d', n)
    ensures SegmentIn(p, file, m0, root, leaves, d, leaves', d')
  {
    assert forall m: nat :: Covers(p, m) ==> m < n;
    assert forall q :: InSegmentTo(p, q, n) <==> InSegment(p, q);
  }

  lemma ExtendsTrans(a: Leaves, d: map<FrameNo, Bytes>, a': Leaves, d': map<FrameNo, Bytes>, a'': Leaves,
                     d'': map<FrameNo, Bytes>)
    requires Extends(a, d, a', d') && Extends(a', d', a'', d'')
    ensures Extends(a, d, a'', d'')
  {}

  lemma StoredPage(p: Phdr, file: seq<Byte>, leaves: Leaves, d0: map<FrameNo, Bytes>, leaves': Leaves,
                   d1: map<FrameNo, Bytes>, n: nat, f: FrameNo)
    requires Sane(p, file) && Covers(p, n) && PermOf(p.flags) != NoPerm && LoadedTo(p, file, leaves, d0, n)
    requires PathOf(n) !in leaves && leaves' == leaves[PathOf(n) := LeafWord(f, PermOf(p.flags), MemNorm)]
    requires f !in d0 && f in d1 && d1 == d0[f := d1[f]] && forall q :: q in leaves ==> leaves[q].frame in d0
    ensures var d2 := d1[f := FilledPage(p, file, n, d1[f])];
            Extends(leaves, d0, leaves', d2) && LoadedTo(p, file, leaves', d2, n + 1)
  {
    var d2 := d1[f := FilledPage(p, file, n, d1[f])];
    assert Extends(leaves, d0, leaves', d2);
    KeepLoadedTo(p, file, leaves, d0, leaves', d2, n);
    PageLoaded(p, file, leaves', d2, n, f, d1[f]);
  }

  /** What the new process reads: through its page table, every byte of every loaded segment is the byte of the
      file, for segments that start and end anywhere in a page. */
  lemma ReadsBack(m0: Mem, m: Mem, root: FrameNo, p: Phdr, file: seq<Byte>, leaves: Leaves, data: map<FrameNo, Bytes>, j: nat)
    requires Image(m0, m, root, leaves) && Sane(p, file) && p.load && j < p.filesz && Loaded(p, file, leaves, data)
    ensures var a := p.vaddr + j; var f := WalkTo(m, root, PathOf(a / PAGESIZE));
            f.Some? && f.value in data && data[f.value][a % PAGESIZE] == file[p.offset + j]
  {
    var a := p.vaddr + j;
    assert Holds(p, file, leaves, data, a);
    LeafWalk(m, root, PathOf(a / PAGESIZE));
  }
}
