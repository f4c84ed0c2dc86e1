/** The arguments and the result of `mmap` on their way through the system call (sys_mmap.c, lib/c/sys/mman/mmap.c), and
    what becomes of the call in `_expand` (lib/c/internal/_block.c). */
module MmapCall {
  import opened Words

  const PROT_READ := 1
  const PROT_WRITE := 2
  const PROT_EXEC := 4
  const MAP_ANONYMOUS := 1
  const MAP_DEVICE := 2
  const NULL := 0
  const MAP_FAILED := -1

  const EINVAL: nat := 5
  const ENOTSUP: nat := 16
  const ERRNO_TOTAL: nat := 18

  /** What `sys_mmap` does with its arguments: an error number, or one of the two kinds of mapping. */
  datatype Dispatch = Anonymous(perm: Perm) | Device(perm: Perm) | Refused(errno: nat)

  /** The access mode; nothing stands for the modes that are refused. */
  function PermOf(prot: int): Perm {
    if prot == PROT_READ then MemRo
    else if prot == PROT_READ + PROT_WRITE then MemRw
    else if prot == PROT_READ + PROT_EXEC then MemEx
    else NoPerm
  }

  function SysMmap(len: nat, prot: int, flags: int): Dispatch {
    if len == 0 then Refused(EINVAL)
    else if PermOf(prot) == NoPerm then Refused(ENOTSUP)
    else if flags == MAP_ANONYMOUS then Anonymous(PermOf(prot))
    else if flags == MAP_DEVICE then Device(PermOf(prot))
    else Refused(ENOTSUP)
  }

  /** `mmap` of the C library: small results are error numbers. */
  function LibMmap(res: int): int {
    if res < ERRNO_TOTAL then MAP_FAILED else res
  }

  /** `_expand` goes on with the block whenever this is not NULL. */
  predicate ExpandGoesOn(res: int) {
    LibMmap(res) != NULL
  }

  /** The three access modes are served with the rights they name: PROT_WRITE is bit 1, PROT_EXEC bit 2. */
  lemma ModesServed(prot: int, f: FrameNo, attr: Attr)
    ensures PermOf(prot) != NoPerm <==> prot == 1 || prot == 3 || prot == 5
    ensures PermOf(prot) != NoPerm ==>
      var w := LeafWord(f, PermOf(prot), attr);
      && UserReads(w) && (UserWrites(w) <==> prot / 2 % 2 == 1) && (UserRuns(w) <==> prot / 4 % 2 == 1)
  {
    if PermOf(prot) != NoPerm { LeafRights(f, PermOf(prot), attr); }
  }

  /** Which calls are refused, and with which number; the number reaches the caller of the C library as MAP_FAILED,
      and the address of a page (but for page 0) as it is. */
  lemma CallsRefused(len: nat, prot: int, flags: int, page: nat, res: int)
    ensures var r := SysMmap(len, prot, flags);
            && (r == Refused(EINVAL) <==> len == 0)
            && (r == Refused(ENOTSUP) <==> len > 0 && (prot !in [1, 3, 5] || flags !in [1, 2]))
            && (r.Anonymous? <==> len > 0 && prot in [1, 3, 5] && flags == 1)
            && (r.Device? <==> len > 0 && prot in [1, 3, 5] && flags == 2)
            && (r.Refused? ==> LibMmap(r.errno) == -1)
            && (!r.Refused? ==> r.perm == PermOf(prot) != NoPerm)
    ensures page > 0 ==> LibMmap(page * 0x1000) == page * 0x1000
    ensures LibMmap(res) == (if res < 18 then -1 else res)
  {
    assert prot in [1, 3, 5] <==> prot == 1 || prot == 3 || prot == 5;
    assert flags in [1, 2] <==> flags == 1 || flags == 2;
  }

  /** `_expand` asks for no access at all, for any size: the kernel refuses every such call, and `_expand` takes -1 for the
      address of a block.  It would do so for every error number there is. */
  lemma ExpandTakesFailure(len: nat, flags: int, res: int)
    ensures SysMmap(len, 0, flags).Refused? && SysMmap(len, 0, flags).errno < ERRNO_TOTAL
    ensures LibMmap(SysMmap(len, 0, flags).errno) == MAP_FAILED && ExpandGoesOn(SysMmap(len, 0, flags).errno)
    ensures ExpandGoesOn(res)
  {
    assert PermOf(0) == NoPerm;
  }
}
