/** Where pages come from and where they go: growth of a class, the beginning and the end of a move, and release. */
module SlabsTransfers {
  import opened SlabsTypes
  import opened SlabsSteps
  import opened SlabsInvariant
  import SlabsMemory
  import opened SlabsBase
  import opened SlabsPages
  import opened SlabsMoves
  import opened SlabsTheorems
  import opened SlabsProgress

  /** Class c has one more page, at the end of its list, and all chunks of it are free and in front of its free list. */
  ghost predicate Gains(cf: Config, s: State, t: State, c: nat, page: Page) {
    && 1 <= c < |s.pages| == |t.pages| == |s.free| == |t.free| == |cf.perslab|
    && t.pages[c] == s.pages[c] + [page]
    && |t.free[c]| == cf.perslab[c] + |s.free[c]| && t.free[c][cf.perslab[c]..] == s.free[c]
    && (forall i :: 0 <= i < cf.perslab[c] ==> Addr(page, i) in t.cells && t.cells[Addr(page, i)] == Free)
    && (forall i :: 0 <= i < cf.perslab[c] ==> t.free[c][i] == Addr(page, cf.perslab[c] - 1 - i))
    && (forall a :: a in s.cells && a.page != page ==> a in t.cells && t.cells[a] == s.cells[a])
    && (forall d :: 0 <= d < |s.free| && d != c ==> t.free[d] == s.free[d])
  }

  lemma {:induction false} FreshListIs(page: Page, n: nat)
    ensures |FreshList(page, n)| == n
    ensures forall i :: 0 <= i < n ==> FreshList(page, n)[i] == Addr(page, n - 1 - i)
  {
    if n > 0 {
      FreshListIs(page, n - 1);
    }
  }

  lemma FreshCellsAre(page: Page, n: nat)
    ensures forall a :: a in FreshCells(page, n) ==> a.page == page && FreshCells(page, n)[a] == Free
    ensures forall i :: 0 <= i < n ==> Addr(page, i) in FreshCells(page, n)
  {
    var list := FreshList(page, n);
    FreshListIs(page, n);
    hide FreshList;
    forall i | 0 <= i < n
      ensures Addr(page, i) in FreshCells(page, n)
    {
      assert list[n - 1 - i] == Addr(page, i);
    }
  }

  lemma AddPageGains(cf: Config, s: State, c: nat, page: Page)
    requires 1 <= c < |s.pages| == |s.free| == |cf.perslab|
    ensures Gains(cf, s, AddPage(cf, s, c, page), c, page)
    ensures forall d :: 0 <= d < |s.pages| && d != c ==> AddPage(cf, s, c, page).pages[d] == s.pages[d]
  {
    hide FreshList, FreshCells;
    var list := FreshList(page, cf.perslab[c]);
    FreshListIs(page, cf.perslab[c]);
    FreshCellsAre(page, cf.perslab[c]);
    assert (list + s.free[c])[cf.perslab[c]..] == s.free[c];
  }

  /**
    do_slabs_newslab: the class grows exactly if the pool has a page, or if malloc
    succeeds and the limit allows it; a class without pages may exceed the limit. The
    page is the last one of the pool if there is one.
   */
  ghost predicate Grows(cf: Config, s: State, t: State, c: nat, memory: bool) {
    && 1 <= c < |s.pages| == |t.pages|
    && (t.pages[c] != s.pages[c] <==>
          || s.pages[0] != []
          || (memory && (cf.limit == 0 || s.malloced + cf.pageSize <= cf.limit || s.pages[c] == [])))
    && (s.pages[0] != [] ==>
          && Gains(cf, s, t, c, s.pages[0][|s.pages[0]| - 1])
          && t.pages[0] + [s.pages[0][|s.pages[0]| - 1]] == s.pages[0]
          && t.malloced == s.malloced)
    && (s.pages[0] == [] && t.pages[c] != s.pages[c] ==>
          Gains(cf, s, t, c, s.nextPage) && t.pages[0] == [] && t.malloced == s.malloced + cf.pageSize)
    && (t.pages[c] == s.pages[c] ==> t == s.(malloced := t.malloced, failed := t.failed))
    && (forall d :: 1 <= d < |s.pages| && d != c ==> t.pages[d] == s.pages[d])
  }

  lemma NewSlabGrows(cf: Config, s: State, c: nat, memory: bool)
    requires 1 <= c < |s.pages| == |s.free| == |cf.perslab|
    ensures Grows(cf, s, NewSlab(cf, s, c, memory), c, memory)
  {
    hide AddPage, Gains;
    if !OverLimit(cf, s, c) {
      if s.pages[0] != [] {
        var last := |s.pages[0]| - 1;
        var u := s.(pages := s.pages[0 := s.pages[0][..last]]);
        AddPageGains(cf, u, c, s.pages[0][last]);
        AddPageMalloced(cf, u, c, s.pages[0][last]);
        SameGains(cf, s, u, NewSlab(cf, s, c, memory), c, s.pages[0][last]);
      } else if memory {
        var u := s.(malloced := s.malloced + cf.pageSize, nextPage := s.nextPage + 1);
        AddPageGains(cf, u, c, s.nextPage);
        AddPageMalloced(cf, u, c, s.nextPage);
        SameGains(cf, s, u, NewSlab(cf, s, c, memory), c, s.nextPage);
      }
    }
  }

  lemma SameGains(cf: Config, s: State, u: State, t: State, c: nat, page: Page)
    requires Gains(cf, u, t, c, page) && |u.pages| == |s.pages| && u.pages[c] == s.pages[c]
    requires u.free == s.free && u.cells == s.cells
    ensures Gains(cf, s, t, c, page) && t.pages[c] == s.pages[c] + [page]
  {}

  lemma AddPageMalloced(cf: Config, s: State, c: nat, page: Page)
    requires 1 <= c < |s.pages| == |s.free| == |cf.perslab|
    ensures AddPage(cf, s, c, page).malloced == s.malloced && AddPage(cf, s, c, page).mover == s.mover
  {}

  /**
    slab_rebalance_start: a move begins exactly if both classes exist and differ and
    the source has two pages or more. It takes the oldest page, from the first chunk.
   */
  lemma StartBegins(s: State, src: nat, dst: nat)
    requires s.mover.Idle?
    ensures var t := Start(s, src, dst);
      && (t.mover.Moving? <==> 1 <= src < |s.pages| && dst < |s.pages| && src != dst && |s.pages[src]| >= 2)
      && (t.mover.Moving? ==>
            && PassBegins(t) && t.mover.rescue.NoRescue?
            && t.mover.src == src && t.mover.dst == dst && t.mover.page == s.pages[src][0])
      && t == s.(mover := t.mover)
  {}

  /** Of a pool, the last pages have been given up, as many as it took to get under the limit and no more. */
  ghost predicate Releases(cf: Config, pool: seq<Page>, malloced: nat, t: State) {
    && 0 < |t.pages| && t.pages[0] <= pool
    && t.malloced + cf.pageSize * (|pool| - |t.pages[0]|) == malloced
    && (t.malloced <= cf.limit || t.pages[0] == [])
    && (t.pages[0] != pool ==> t.malloced + cf.pageSize > cf.limit)
  }

  /** memory_release; the pages of the pool are part of the total. */
  lemma {:induction false} ReleaseReleases(cf: Config, s: State)
    requires 0 < |s.pages| && s.malloced >= cf.pageSize * |s.pages[0]|
    ensures Releases(cf, s.pages[0], s.malloced, Release(cf, s))
    ensures Release(cf, s).pages == s.pages[0 := Release(cf, s).pages[0]] && Release(cf, s).mover == s.mover
    decreases |s.pages[0]|
  {
    if s.pages[0] != [] {
      var last := |s.pages[0]| - 1;
      MulAdd(cf.pageSize, last);
      if s.malloced > cf.limit {
        var u := s.(pages := s.pages[0 := s.pages[0][..last]], owner := s.owner - {s.pages[0][last]},
                    malloced := s.malloced - cf.pageSize);
        ReleaseReleases(cf, u);
        MulAdd(cf.pageSize, last - |Release(cf, u).pages[0]|);
      }
    }
  }

  /**
    slab_rebalance_finish: the source loses the page that was emptied. Another class
    gains it, whole and free. The pool gets it at the end of its list, and then gives
    pages back to the system if there is more memory than the limit.
   */
  ghost predicate HandsOver(cf: Config, s: State, t: State) {
    && s.mover.Moving? && t.mover.Idle? && |t.pages| == |s.pages| && s.mover.src < |s.pages| && s.mover.dst < |s.pages|
    && s.pages[s.mover.src] == [s.mover.page] + t.pages[s.mover.src]
    && (s.mover.dst != 0 ==> Gains(cf, s, t, s.mover.dst, s.mover.page) && t.malloced == s.malloced)
    && (s.mover.dst == 0 ==> Releases(cf, s.pages[0] + [s.mover.page], s.malloced, t))
    && (forall d :: 1 <= d < |s.pages| && d != s.mover.src && d != s.mover.dst ==> t.pages[d] == s.pages[d])
  }

  lemma FinishHandsOver(cf: Config, s: State)
    requires Inv(cf, s) && Enabled(cf, s, FinishMove)
    ensures HandsOver(cf, s, Finish(cf, s))
  {
    hide Base, Heap, AddPage, Release, Gains, Releases;
    var m, u := s.mover, TakePage(s);
    SourceFacts(cf, s);
    if m.dst == 0 {
      PoolFits(cf, s);
      ReleaseReleases(cf, PoolPage(u, m.page));
    } else {
      AddPageGains(cf, u, m.dst, m.page);
      AddPageMalloced(cf, u, m.dst, m.page);
      TakenGains(cf, s, u, Finish(cf, s), m.dst, m.page);
    }
  }

  lemma SourceFacts(cf: Config, s: State)
    requires Inv(cf, s) && s.mover.Moving?
    ensures s.mover.src != s.mover.dst && 1 <= s.mover.src < |s.pages| == |s.free| == |cf.perslab|
    ensures s.pages[s.mover.src] != [] && s.pages[s.mover.src][0] == s.mover.page
  {
    hide PagesOk, CellsOk, FreeOk, CountsOk, MemoryOk, Heap;
  }

  lemma PoolFits(cf: Config, s: State)
    requires Inv(cf, s) && s.mover.Moving? && s.mover.dst == 0 && s.mover.src < |s.pages| && s.pages[s.mover.src] != []
    ensures var u := PoolPage(TakePage(s), s.mover.page); u.pages != [] && u.malloced >= cf.pageSize * |u.pages[0]|
  {
    hide PagesOk, CellsOk, FreeOk, CountsOk, Heap;
    var u := PoolPage(TakePage(s), s.mover.page);
    PoolPageMemory(cf, s);
    hide MoverOk;
    SlabsMemory.MulMono(cf.pageSize, |u.pages[0]|, Total(u.pages) + u.failed.all);
  }

  lemma TakenGains(cf: Config, s: State, u: State, t: State, c: nat, page: Page)
    requires Gains(cf, u, t, c, page) && |u.pages| == |s.pages| && u.pages[c] == s.pages[c] && u.free == s.free
    requires forall a :: a in s.cells && a.page != page ==> a in u.cells && u.cells[a] == s.cells[a]
    ensures Gains(cf, s, t, c, page)
  {}

  lemma InvShape(cf: Config, s: State)
    requires Inv(cf, s)
    ensures Shape(cf, s)
  {
    hide PagesOk, CellsOk, FreeOk, MoverOk, CountsOk, MemoryOk, Heap;
  }

  lemma FinishFacts(cf: Config, s: State)
    requires s.mover.Moving? && s.mover.src < |s.pages| && s.pages[s.mover.src] != [] && s.mover.dst < |s.pages|
    requires |s.pages| == |s.free| == |cf.perslab|
    ensures Inv(cf, s) && s.mover.done ==> Inv(cf, Finish(cf, s)) && HandsOver(cf, s, Finish(cf, s))
  {
    hide Inv, HandsOver, Finish;
    if Inv(cf, s) && s.mover.done {
      InvShape(cf, s);
      FinishHandsOver(cf, s);
      FinishMoveKeeps(cf, s);
    }
  }
}
