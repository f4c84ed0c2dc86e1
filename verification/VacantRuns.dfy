/** When `mem_user_find_empty` returns: its loop has no end of its own, and page numbers count modulo 2^36. */
module VacantRuns {
  import opened Words
  import opened Paging
  import opened Cow
  import opened UserMap
  import opened AddressSpaces

  lemma UnusedSame(m: Mem, root: FrameNo, page: nat, page': nat)
    requires page % PAGES == page' % PAGES
    ensures Unused(m, root, page) <==> Unused(m, root, page')
  {
    PathOfSame(page, page');
  }

  lemma ModAdd(page: nat, page': nat, k: nat)
    requires page % PAGES == page' % PAGES
    ensures (page + k) % PAGES == (page' + k) % PAGES
  {
    var q, q' := page / PAGES, page' / PAGES;
    assert page + k == page' + k + (q - q') * PAGES;
    ModShifted(page' + k, page + k, q - q');
  }

  /** Whether a run is vacant depends on its first page modulo 2^36. */
  lemma VacantSame(m: Mem, root: FrameNo, page: nat, page': nat, count: nat)
    requires page % PAGES == page' % PAGES && Vacant(m, root, page, count)
    ensures Vacant(m, root, page', count)
  {
    forall p: nat | page' <= p < page' + count
      ensures Unused(m, root, p)
    {
      ModAdd(page, page', p - page');
      UnusedSame(m, root, page + (p - page'), p);
    }
  }

  /** How many of the `n` pages from `page` on are unused before the first taken one. */
  ghost function Run(m: Mem, root: FrameNo, page: nat, n: nat): (r: nat)
    ensures r <= n
    decreases n
  {
    if n == 0 || !Unused(m, root, page) then 0 else 1 + Run(m, root, page + 1, n - 1)
  }

  lemma {:induction false} RunIs(m: Mem, root: FrameNo, page: nat, n: nat)
    ensures var r := Run(m, root, page, n); Vacant(m, root, page, r) && (r < n ==> !Unused(m, root, page + r))
    decreases n
  {
    if n > 0 && Unused(m, root, page) {
      RunIs(m, root, page + 1, n - 1);
    }
  }

  lemma RunReaches(m: Mem, root: FrameNo, page: nat, n: nat, count: nat)
    requires Vacant(m, root, page, count)
    ensures Run(m, root, page, n) >= if count < n then count else n
  {
    RunIs(m, root, page, n);
  }

  /** The longest such run from one of the first `n` pages. */
  ghost function LongestBelow(m: Mem, root: FrameNo, n: nat, limit: nat): (r: nat)
    ensures r <= limit
  {
    if n == 0 then 0
    else var l, r := LongestBelow(m, root, n - 1, limit), Run(m, root, n - 1, limit); if l < r then r else l
  }

  ghost function Longest(m: Mem, root: FrameNo): nat { LongestBelow(m, root, PAGES, PAGES) }

  lemma {:induction false} LongestBounds(m: Mem, root: FrameNo, n: nat, limit: nat, page: nat)
    requires page < n
    ensures Run(m, root, page, limit) <= LongestBelow(m, root, n, limit)
    decreases n
  {
    if page < n - 1 {
      LongestBounds(m, root, n - 1, limit, page);
    }
  }

  lemma {:induction false} LongestReached(m: Mem, root: FrameNo, n: nat, limit: nat) returns (page: nat)
    requires n > 0
    ensures page < n && Run(m, root, page, limit) == LongestBelow(m, root, n, limit)
    decreases n
  {
    page := n - 1;
    if n > 1 && LongestBelow(m, root, n - 1, limit) >= Run(m, root, n - 1, limit) {
      page := LongestReached(m, root, n - 1, limit);
    } else if n == 1 {
      assert LongestBelow(m, root, 0, limit) == 0;
    }
  }

  /** The number of pages fits: no more than the longest run, unless nothing at all is mapped. */
  ghost predicate Fits(m: Mem, root: FrameNo, count: nat) {
    count <= Longest(m, root) || Longest(m, root) == PAGES
  }

  lemma AllUnused(m: Mem, root: FrameNo, page: nat, count: nat)
    requires Vacant(m, root, page, PAGES)
    ensures Vacant(m, root, page, count)
  {
    forall p: nat | page <= p < page + count
      ensures Unused(m, root, p)
    {
      var p' := page + (p - page) % PAGES;
      ModShifted(p', p, (p - page) / PAGES);
      UnusedSame(m, root, p', p);
    }
  }

  lemma FitsVacant(m: Mem, root: FrameNo, count: nat) returns (page: nat)
    requires Fits(m, root, count)
    ensures Vacant(m, root, page, count)
  {
    var all := PAGES;
    page := LongestReached(m, root, all, all);
    RunIs(m, root, page, all);
    if count > Longest(m, root) {
      AllUnused(m, root, page, count);
    }
  }

  lemma VacantFits(m: Mem, root: FrameNo, count: nat, page: nat)
    requires Vacant(m, root, page, count)
    ensures Fits(m, root, count)
  {
    var all := PAGES;
    var p := page % all;
    ModShifted(p, page, page / all);
    VacantSame(m, root, page, p, count);
    RunReaches(m, root, p, all, count);
    LongestBounds(m, root, all, all, p);
  }

  /** A vacant run starts among any 2^36 pages, if there is one at all. */
  lemma VacantAhead(m: Mem, root: FrameNo, count: nat, start: nat) returns (page: nat)
    requires Fits(m, root, count)
    ensures start <= page < start + PAGES && Vacant(m, root, page, count)
  {
    var p := FitsVacant(m, root, count);
    page := start + (p - start) % PAGES;
    ModShifted(page, p, (p - start) / PAGES);
    VacantSame(m, root, p, page, count);
  }

  /** The search meets a taken page at every start if and only if the number of pages does not fit. */
  lemma NeverFoundIff(m: Mem, root: FrameNo, count: nat, start: nat)
    ensures (forall p: nat :: p >= start ==> !Vacant(m, root, p, count)) <==> !Fits(m, root, count)
  {
    if Fits(m, root, count) {
      var p := VacantAhead(m, root, count, start);
    }
    forall p: nat | Vacant(m, root, p, count)
      ensures Fits(m, root, count)
    {
      VacantFits(m, root, count, p);
    }
  }

  /** As soon as one page is mapped, a request for 2^36 pages never fits. */
  lemma TooMany(m: Mem, root: FrameNo, page: nat, count: nat)
    requires !Unused(m, root, page) && count >= PAGES
    ensures !Fits(m, root, count)
  {
    if Fits(m, root, count) {
      var p := VacantAhead(m, root, count, page);
      var d := (page - p) % PAGES;
      ModShifted(page, p + d, (p + d - page) / PAGES);
      UnusedSame(m, root, page, p + d);
    }
  }
}
