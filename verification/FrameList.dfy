/** The frames the page allocator will hand out, as a list: what stands behind the list of frames that the model of user
    memory takes its tables and pages from. */
module FrameList {
  import opened Options
  import opened Words
  import opened Paging
  import opened FrameMap
  import opened KernelPages
  import Cow

  /** The state of the allocator: the frames not in use, and the entries of the kernel's level-2 table that have a table. */
  datatype Pool = Pool(unused: set<nat>, tables: set<Idx>)

  ghost function PoolOf(m: Mem, map_: seq<Bits>, k: Tops): Pool
    requires |map_| == MAP_WORDS
  {
    Pool(set f: nat | LOW_FRAME <= f < LOW_FRAME + MAP_PAGES && !InUse(map_, f),
         set i: Idx | i < 496 && At(m, k.level2)[i].valid)
  }

  ghost function Min(s: set<nat>): (m: nat)
    requires s != {}
    ensures m in s && forall x :: x in s ==> m <= x
    decreases |s|
  {
    var x :| x in s;
    Cow.SmallerSet(s, x);
    if s - {x} == {} then assert forall y :: y in s ==> y == x || y in s - {x}; x
    else
      var y := Min(s - {x});
      assert forall z :: z in s ==> z == x || z in s - {x};
      if x < y then x else y
  }

  lemma MinIs(s: set<nat>, m: nat)
    requires m in s && forall x :: x in s ==> m <= x
    ensures Min(s) == m
  {
  }

  /** What the next calls hand out.  A frame whose linear address has no level-3 table yet takes the next one along for
      that table; if there is none, the call fails and so do all that follow. */
  ghost function Coming(p: Pool): (fs: seq<nat>)
    decreases |p.unused|
  {
    if p.unused == {} then []
    else
      var f := Min(p.unused);
      var rest := p.unused - {f};
      Cow.SmallerSet(p.unused, f);
      if Hi(f) in p.tables then [f] + Coming(Pool(rest, p.tables))
      else if rest == {} then []
      else
        Cow.SmallerSet(rest, Min(rest));
        [f] + Coming(Pool(rest - {Min(rest)}, p.tables + {Hi(f)}))
  }

  /** The list names different frames, and only such as are not in use. */
  lemma {:induction false} ComingFree(p: Pool)
    ensures forall i :: 0 <= i < |Coming(p)| ==> Coming(p)[i] in p.unused
    ensures forall i, j :: 0 <= i < j < |Coming(p)| ==> Coming(p)[i] != Coming(p)[j]
    decreases |p.unused|
  {
    if p.unused != {} {
      var f := Min(p.unused);
      var rest := p.unused - {f};
      Cow.SmallerSet(p.unused, f);
      if Hi(f) in p.tables {
        ComingFree(Pool(rest, p.tables));
        Ahead(p, f, Coming(Pool(rest, p.tables)));
      } else if rest != {} {
        var p' := Pool(rest - {Min(rest)}, p.tables + {Hi(f)});
        Cow.SmallerSet(rest, Min(rest));
        ComingFree(p');
        Ahead(p, f, Coming(p'));
      }
    }
  }

  lemma Ahead(p: Pool, f: nat, fs: seq<nat>)
    requires f in p.unused && (forall i :: 0 <= i < |fs| ==> fs[i] in p.unused - {f})
    requires forall i, j :: 0 <= i < j < |fs| ==> fs[i] != fs[j]
    ensures var gs := [f] + fs;
            (forall i :: 0 <= i < |gs| ==> gs[i] in p.unused) && (forall i, j :: 0 <= i < j < |gs| ==> gs[i] != gs[j])
  {
  }

  // ---------------------------------------------------------------- the bitmap refines the list

  lemma LeastIsMin(m: Mem, map_: seq<Bits>, k: Tops, f: nat)
    requires |map_| == MAP_WORDS && Least(map_, f)
    ensures var u := PoolOf(m, map_, k).unused; u != {} && Min(u) == f
  {
    var u := PoolOf(m, map_, k).unused;
    assert f in u;
    forall x | x in u
      ensures f <= x
    {
    }
    MinIs(u, f);
  }

  lemma SecondIsMin(m: Mem, map_: seq<Bits>, k: Tops, f: nat, t: nat)
    requires |map_| == MAP_WORDS && Second(map_, f, t)
    ensures var rest := PoolOf(m, map_, k).unused - {f}; rest != {} && Min(rest) == t
  {
    var rest := PoolOf(m, map_, k).unused - {f};
    assert t in rest;
    forall x | x in rest
      ensures t <= x
    {
    }
    MinIs(rest, t);
  }

  lemma TakesOne(m: Mem, map_: seq<Bits>, k: Tops, f: nat, m': Mem, map': seq<Bits>)
    requires |map_| == MAP_WORDS && |map'| == MAP_WORDS && Free(map_, f) && Hi(f) < 496 && At(m, k.level2)[Hi(f)].valid
    requires forall i: Idx :: i < 496 ==> (At(m', k.level2)[i].valid <==> At(m, k.level2)[i].valid || i == Hi(f))
    requires forall g: nat :: InUse(map', g) <==> InUse(map_, g) || g == f
    ensures PoolOf(m', map', k) == Pool(PoolOf(m, map_, k).unused - {f}, PoolOf(m, map_, k).tables)
    ensures Hi(f) in PoolOf(m, map_, k).tables
  {
    var p, p' := PoolOf(m, map_, k), PoolOf(m', map', k);
    assert p'.unused == p.unused - {f};
    assert p'.tables == p.tables;
  }

  lemma TakesTwo(m: Mem, map_: seq<Bits>, k: Tops, f: nat, t: nat, m': Mem, map': seq<Bits>)
    requires |map_| == MAP_WORDS && |map'| == MAP_WORDS && Free(map_, f) && Hi(f) < 496 && !At(m, k.level2)[Hi(f)].valid
    requires forall i: Idx :: i < 496 ==> (At(m', k.level2)[i].valid <==> At(m, k.level2)[i].valid || i == Hi(f))
    requires forall g: nat :: InUse(map', g) <==> InUse(map_, g) || g == f || g == t
    ensures PoolOf(m', map', k) == Pool(PoolOf(m, map_, k).unused - {f} - {t}, PoolOf(m, map_, k).tables + {Hi(f)})
    ensures Hi(f) !in PoolOf(m, map_, k).tables
  {
    var p, p' := PoolOf(m, map_, k), PoolOf(m', map', k);
    assert p'.unused == p.unused - {f} - {t};
    assert p'.tables == p.tables + {Hi(f)};
  }

  /** A call that succeeds takes the head of the list. */
  lemma TakesHead(m: Mem, map_: seq<Bits>, k: Tops, f: nat, m': Mem, map': seq<Bits>)
    requires |map_| == MAP_WORDS && |map'| == MAP_WORDS && Least(map_, f) && Took(m, map_, k, f, m', map')
    requires Hi(f) < 496
    ensures Coming(PoolOf(m, map_, k)) == [f] + Coming(PoolOf(m', map', k))
  {
    LeastIsMin(m, map_, k, f);
    if At(m, k.level2)[Hi(f)].valid {
      TakesOne(m, map_, k, f, m', map');
    } else {
      var t: nat :| Second(map_, f, t) && forall g: nat :: InUse(map', g) <==> InUse(map_, g) || g == f || g == t;
      SecondIsMin(m, map_, k, f, t);
      TakesTwo(m, map_, k, f, t, m', map');
    }
  }

  /** A call fails exactly if the list is empty. */
  lemma EmptyIff(m: Mem, map_: seq<Bits>, k: Tops)
    requires |map_| == MAP_WORDS
    ensures Coming(PoolOf(m, map_, k)) == [] <==> !Room(m, map_, k)
  {
    var p := PoolOf(m, map_, k);
    forall f: nat
      ensures Free(map_, f) <==> f in p.unused
    {
    }
    if p.unused != {} {
      var f := Min(p.unused);
      assert Least(map_, f) by {
        forall g: nat | LOW_FRAME <= g < f
          ensures InUse(map_, g)
        {
          assert Free(map_, g) <==> g in p.unused;
        }
      }
      forall h: nat | Least(map_, h)
        ensures h == f
      {
        LeastIsMin(m, map_, k, h);
      }
      Below(f);
      assert Hi(f) in p.tables <==> At(m, k.level2)[Hi(f)].valid;
      if p.unused - {f} == {} {
        forall g: nat | Free(map_, g)
          ensures g == f
        {
          assert g in p.unused - {f} || g == f;
        }
      } else {
        assert Min(p.unused - {f}) != f && Free(map_, Min(p.unused - {f}));
      }
    }
  }

  lemma Below(f: nat)
    requires f < LOW_FRAME + MAP_PAGES
    ensures Hi(f) < 496
  {
  }

  /** `mem_kernel_alloc_page(MEM_RW)`, as the code that works on user memory sees it: the head of a list. */
  method Next(km: KernelMemory) returns (r: Option<FrameNo>)
    requires km.Valid()
    modifies km`mem, km.frames.words
    ensures km.Valid()
    ensures r.None? <==> old(Coming(PoolOf(km.mem, km.Map(), km.tops))) == []
    ensures r.None? ==> km.mem == old(km.mem)
    ensures r.Some? ==> old(Coming(PoolOf(km.mem, km.Map(), km.tops))) == [r.value] + Coming(PoolOf(km.mem, km.Map(), km.tops))
    ensures forall g: FrameNo :: InUse(old(km.Map()), g) && !IsTable(old(km.mem), km.tops, g) ==>
      InUse(km.Map(), g) && !IsTable(km.mem, km.tops, g) && At(km.mem, g) == At(old(km.mem), g)
  {
    EmptyIff(km.mem, km.Map(), km.tops);
    var err, f := km.AllocPage(MemRw);
    if err != ErrOk { return None; }
    Below(f);
    TakesHead(old(km.mem), old(km.Map()), km.tops, f, km.mem, km.Map());
    return Some(f);
  }

  /** So the list meets what the model of user memory asks of its frames: address spaces whose frames are in use can take
      from it. */
  lemma ComingShape(s: Spaces, p: Pool)
    requires Tables(s.mem, s.place) && (forall r :: r in s.roots ==> r in s.place && s.place[r] == [])
    requires s.avail == Coming(p) && (forall f :: f in s.mem ==> f !in p.unused)
    ensures TreeShape(s)
  {
    ComingFree(p);
  }

  // ---------------------------------------------------------------- frames given back

  /** After `pmm_free` of a page the list is that of one frame more. */
  lemma FreedPool(m: Mem, map_: seq<Bits>, k: Tops, f: nat, m': Mem, map': seq<Bits>)
    requires |map_| == MAP_WORDS && |map'| == MAP_WORDS && LOW_FRAME <= f < LOW_FRAME + MAP_PAGES
    requires forall g: nat :: InUse(map', g) <==> InUse(map_, g) && g != f
    requires forall i: Idx :: i < 496 ==> (At(m', k.level2)[i].valid <==> At(m, k.level2)[i].valid)
    ensures PoolOf(m', map', k) == Pool(PoolOf(m, map_, k).unused + {f}, PoolOf(m, map_, k).tables)
  {
    var p, p' := PoolOf(m, map_, k), PoolOf(m', map', k);
    assert p'.unused == p.unused + {f};
    assert p'.tables == p.tables;
  }

  /** But the list need not become longer: the frame given back may be the one that goes for a table, and the frame that
      went for it before finds no table of its own. */
  lemma FreedForTable(a: nat, f: nat, b: nat, tables: set<Idx>)
    requires a < f < b && Hi(a) != Hi(b) && Hi(a) !in tables && Hi(b) !in tables
    ensures Coming(Pool({a, b}, tables)) == [a] && Coming(Pool({a, b} + {f}, tables)) == [a]
  {
    var u := {a, b};
    MinIs(u, a);
    assert u - {a} == {b};
    MinIs({b}, b);
    assert {b} - {b} == {};
    assert Coming(Pool({}, tables + {Hi(a)})) == [];
    var v := {a, b} + {f};
    MinIs(v, a);
    assert v - {a} == {f, b};
    MinIs({f, b}, f);
    assert {f, b} - {f} == {b};
    assert Coming(Pool({b}, tables + {Hi(a)})) == [];
  }
}
