/** The four indices that the kernel takes out of a 64-bit user address (`mmu_get_table_idx`) are those of its page
    number in module UserMap. */
module UserAddress {
  import opened Paging
  import opened SelfMapBits
  import opened SelfMap
  import opened UserMap

  /** An address by its parts: 16 upper bits, which no index holds, four indices, and an offset. */
  function Parts(top: bv64, a: bv64, b: bv64, c: bv64, d: bv64, off: bv64): bv64 {
    (top << 48) | (a << 39) | (b << 30) | (c << 21) | (d << 12) | off
  }

  lemma PartsIndex(top: bv64, a: bv64, b: bv64, c: bv64, d: bv64, off: bv64)
    requires a <= 511 && b <= 511 && c <= 511 && d <= 511 && off <= 0xfff
    ensures var va := Parts(top, a, b, c, d, off);
            Index(va, 0) == a && Index(va, 1) == b && Index(va, 2) == c && Index(va, 3) == d
  {}

  /** Every address has such parts. */
  lemma PartsOf(va: bv64)
    ensures va == Parts(va >> 48, Index(va, 0), Index(va, 1), Index(va, 2), Index(va, 3), va & 0xfff)
  {}

  /** The path of an address is the path of the number whose digits to the base 512 are its indices, the first index
      first; the offset and the upper bits do not matter. */
  lemma AddressPage(top: bv64, a: bv64, b: bv64, c: bv64, d: bv64, off: bv64)
    requires a <= 511 && b <= 511 && c <= 511 && d <= 511 && off <= 0xfff
    ensures PathOfAddress(Parts(top, a, b, c, d, off))
            == PathOf(0x800_0000 * Num(a) + 0x4_0000 * Num(b) + 512 * Num(c) + Num(d))
  {
    PartsIndex(top, a, b, c, d, off);
    var p := PathOfAddress(Parts(top, a, b, c, d, off));
    assert p == [Num(a), Num(b), Num(c), Num(d)];
    PathOfPage(p);
    assert PageOf(p) == 0x800_0000 * Num(a) + 0x4_0000 * Num(b) + 512 * Num(c) + Num(d);
  }
}
