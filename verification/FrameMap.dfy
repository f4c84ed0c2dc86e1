/** The bitmap of physical page frames (pmm.c).  Page number `p` of the bitmap is the frame at
    MEM_LOW + p * PAGESIZE; a word of the bitmap is the sequence of its 64 bits. */
module FrameMap {
  import opened Options
  import opened Words
  import opened Paging

  const LOW_FRAME: nat := 0x80      // MEM_LOW / PAGESIZE
  const HIGH_FRAME: nat := 0x3e000  // MEM_HIGH / PAGESIZE
  const MAP_WORDS: nat := 3965      // (HIGH_FRAME - LOW_FRAME) / 64 - 1
  const MAP_PAGES: nat := 253760    // MAP_WORDS * 64

  function Ones(n: nat): (s: seq<bool>)
    ensures |s| == n && forall k :: 0 <= k < n ==> s[k]
  {
    if n == 0 then [] else Ones(n - 1) + [true]
  }

  type Bits = s: seq<bool> | |s| == 64 witness Ones(64)

  const SIZE_MAX: Bits := Ones(64)

  /** Is frame `f` in use? */
  predicate InUse(map_: seq<Bits>, f: nat)
    requires |map_| == MAP_WORDS
  {
    LOW_FRAME <= f < LOW_FRAME + MAP_PAGES && map_[(f - LOW_FRAME) / 64][(f - LOW_FRAME) % 64]
  }

  function WithBit(map_: seq<Bits>, p: nat, b: bool): seq<Bits>
    requires |map_| == MAP_WORDS && p < MAP_PAGES
  {
    map_[p / 64 := map_[p / 64][p % 64 := b]]
  }

  /** Setting or clearing one bit changes the state of one frame. */
  lemma WithBitInUse(map_: seq<Bits>, p: nat, b: bool, f: nat)
    requires |map_| == MAP_WORDS && p < MAP_PAGES
    ensures InUse(WithBit(map_, p, b), f) <==> if f == LOW_FRAME + p then b else InUse(map_, f)
  {
    if LOW_FRAME <= f < LOW_FRAME + MAP_PAGES {
      var q := f - LOW_FRAME;
      assert q == 64 * (q / 64) + q % 64 && p == 64 * (p / 64) + p % 64;
    }
  }

  class Frames {
    const words: array<Bits>

    constructor ()
      ensures fresh(words) && words.Length == MAP_WORDS
    {
      words := new Bits[MAP_WORDS];
    }

    /** `pmm_free` */
    method Free(f: nat)
      requires words.Length == MAP_WORDS && LOW_FRAME <= f < LOW_FRAME + MAP_PAGES
      modifies words
      ensures forall g: nat :: InUse(words[..], g) <==> InUse(old(words[..]), g) && g != f
    {
      var page := f - LOW_FRAME;
      ghost var before := words[..];
      words[page / 64] := words[page / 64][page % 64 := false];
      assert words[..] == WithBit(before, page, false);
      forall g: nat
        ensures InUse(words[..], g) <==> InUse(before, g) && g != f
      {
        WithBitInUse(before, page, false, g);
      }
    }

    /** `pmm_mark`, for frames in the bitmap.  `mmu_setup` also marks frames from 0x3e000 on, whose word has a number from
        3966 on: these calls write behind the 3965 words of the array. */
    method Mark(f: nat)
      requires words.Length == MAP_WORDS && LOW_FRAME <= f < LOW_FRAME + MAP_PAGES
      modifies words
      ensures forall g: nat :: InUse(words[..], g) <==> InUse(old(words[..]), g) || g == f
    {
      var page := f - LOW_FRAME;
      ghost var before := words[..];
      words[page / 64] := words[page / 64][page % 64 := true];
      assert words[..] == WithBit(before, page, true);
      forall g: nat
        ensures InUse(words[..], g) <==> InUse(before, g) || g == f
      {
        WithBitInUse(before, page, true, g);
      }
    }

    /** `pmm_get`: the lowest frame that is not in use; words without a clear bit are skipped at once. */
    method Get() returns (r: Option<nat>)
      requires words.Length == MAP_WORDS
      modifies words
      ensures r.Some? ==> !InUse(old(words[..]), r.value) && LOW_FRAME <= r.value < LOW_FRAME + MAP_PAGES
      ensures forall g: nat :: LOW_FRAME <= g < (if r.Some? then r.value else LOW_FRAME + MAP_PAGES) ==>
                InUse(old(words[..]), g)
      ensures forall g: nat :: InUse(words[..], g) <==> InUse(old(words[..]), g) || r == Some(g)
      ensures r.None? ==> words[..] == old(words[..])
    {
      ghost var before := words[..];
      for i := 0 to MAP_WORDS
        invariant words[..] == before
        invariant forall p :: 0 <= p < 64 * i ==> before[p / 64][p % 64]
      {
        if words[i] == SIZE_MAX {
          assert forall p :: 64 * i <= p < 64 * (i + 1) ==> p / 64 == i;
          continue;
        }
        for off := 0 to 64
          invariant words[..] == before
          invariant forall p :: 0 <= p < 64 * i + off ==> before[p / 64][p % 64]
        {
          ghost var page := i * 64 + off;
          assert page / 64 == i && page % 64 == off;
          if !words[i][off] {
            words[i] := words[i][off := true];
            assert words[..] == WithBit(before, page, true);
            forall g: nat
              ensures InUse(words[..], g) <==> InUse(before, g) || g == LOW_FRAME + page
            {
              WithBitInUse(before, page, true, g);
            }
            return Some(LOW_FRAME + i * 64 + off);
          }
        }
      }
      return None;
    }
  }
}
