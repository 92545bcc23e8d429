/** How pages enter and leave classes: growth, the page pool, and the end of a move. */
module SlabsPages {
  import opened SlabsTypes
  import opened SlabsSteps
  import opened SlabsInvariant
  import opened LruSpec
  import SlabsBase

  /** The invariant of lists and counts, without the memory total. */
  ghost predicate Lists(cf: Config, s: State) {
    Shape(cf, s) && PagesOk(s) && CellsOk(cf, s) && FreeOk(s) && MoverOk(cf, s) && CountsOk(cf, s)
  }

  // ----- a fresh page -----

  lemma {:induction false} FreshMembers(page: Page, n: nat, a: Addr)
    ensures a in FreshList(page, n) <==> a.page == page && a.idx < n
  {
    if n > 0 {
      FreshMembers(page, n - 1, a);
    }
  }

  lemma FreshFacts(page: Page, n: nat)
    ensures forall a :: a in FreshList(page, n) <==> a.page == page && a.idx < n
    ensures forall a :: a in FreshCells(page, n) <==> a.page == page && a.idx < n
    ensures forall a :: a in FreshCells(page, n) ==> FreshCells(page, n)[a] == Free
  {
    forall a: Addr ensures a in FreshList(page, n) <==> a.page == page && a.idx < n {
      FreshMembers(page, n, a);
    }
  }

  lemma {:induction false} FreshDistinct(page: Page, n: nat)
    ensures Distinct(FreshList(page, n)) && |FreshList(page, n)| == n
  {
    if n > 0 {
      FreshDistinct(page, n - 1);
      FreshMembers(page, n - 1, Addr(page, n - 1));
      SlabsBase.DistinctCons(Addr(page, n - 1), FreshList(page, n - 1));
    }
  }

  lemma DistinctAppend<T>(xs: seq<T>, ys: seq<T>)
    requires Distinct(xs) && Distinct(ys) && forall x :: x in xs ==> x !in ys
    ensures Distinct(xs + ys)
  {
    forall i, j | 0 <= i < j < |xs + ys|
      ensures (xs + ys)[i] != (xs + ys)[j]
    {
      if i < |xs| <= j {
        assert xs[i] in xs && ys[j - |xs|] in ys;
      }
    }
  }

  /** A page that no class has. */
  ghost predicate NewPage(s: State, page: Page) {
    page !in s.owner && page < s.nextPage
  }

  lemma AddPages(cf: Config, s: State, c: nat, page: Page)
    requires Shape(cf, s) && PagesOk(s) && NewPage(s, page) && 1 <= c < |s.pages|
    ensures PagesOk(AddPage(cf, s, c, page))
  {
    var t := AddPage(cf, s, c, page);
    assert page !in s.pages[c];
    DistinctAppend(s.pages[c], [page]);
    hide Distinct;
  }

  lemma AddCells(cf: Config, s: State, c: nat, page: Page)
    requires Shape(cf, s) && CellsOk(cf, s) && NewPage(s, page) && 1 <= c < |s.pages|
    ensures CellsOk(cf, AddPage(cf, s, c, page))
  {
    FreshFacts(page, cf.perslab[c]);
    hide FreshList, FreshCells;
  }

  lemma AddFree(cf: Config, s: State, c: nat, page: Page)
    requires Shape(cf, s) && CellsOk(cf, s) && FreeOk(s) && NewPage(s, page) && 1 <= c < |s.pages|
    ensures FreeOk(AddPage(cf, s, c, page))
  {
    hide FreshList, FreshCells, Distinct;
    var n := cf.perslab[c];
    FreshFacts(page, n);
    FreshDistinct(page, n);
    assert Distinct(s.free[c]);
    DistinctAppend(FreshList(page, n), s.free[c]);
    var t := AddPage(cf, s, c, page);
    assert t.free[c] == FreshList(page, n) + s.free[c];
  }

  lemma AddMover(cf: Config, s: State, c: nat, page: Page)
    requires Shape(cf, s) && PagesOk(s) && CellsOk(cf, s) && MoverOk(cf, s) && NewPage(s, page) && 1 <= c < |s.pages|
    ensures MoverOk(cf, AddPage(cf, s, c, page))
  {
    FreshFacts(page, cf.perslab[c]);
    hide FreshList, FreshCells;
    var t := AddPage(cf, s, c, page);
    assert forall p, i :: IsCleared(s, p, i) ==> p in s.owner && IsCleared(t, p, i);
  }

  lemma AddSame(cf: Config, s: State, c: nat, page: Page, k: nat)
    requires Shape(cf, s) && PagesOk(s) && NewPage(s, page) && 1 <= c < |s.pages| && 1 <= k < |s.pages|
    ensures SameOn(s.cells, AddPage(cf, s, c, page).cells, s.pages[k])
  {
    hide FreshList, FreshCells, Distinct;
    FreshFacts(page, cf.perslab[c]);
    assert page !in s.pages[k];
  }

  lemma AddCounts(cf: Config, s: State, c: nat, page: Page, k: nat)
    requires Shape(cf, s) && PagesOk(s) && CellsOk(cf, s) && NewPage(s, page) && 1 <= c < |s.pages|
    requires 1 <= k < |s.pages|
    requires |s.free[k]| == Tally(FreeChunks, s.cells, s.pages[k], cf.perslab[k])
    requires s.requested[k] == Tally(Bytes, s.cells, s.pages[k], cf.perslab[k])
    ensures var t := AddPage(cf, s, c, page);
      && |t.free[k]| == Tally(FreeChunks, t.cells, t.pages[k], cf.perslab[k])
      && t.requested[k] == Tally(Bytes, t.cells, t.pages[k], cf.perslab[k])
  {
    hide FreshList, FreshCells, Tally, Distinct, SameOn, PagesOk, CellsOk;
    var t, n := AddPage(cf, s, c, page), cf.perslab[k];
    FreshFacts(page, cf.perslab[c]);
    FreshDistinct(page, cf.perslab[c]);
    AddSame(cf, s, c, page, k);
    TallySame(FreeChunks, s.cells, t.cells, s.pages[k], n);
    TallySame(Bytes, s.cells, t.cells, s.pages[k], n);
    if k == c {
      TallySnoc(FreeChunks, t.cells, s.pages[k], page, n);
      TallySnoc(Bytes, t.cells, s.pages[k], page, n);
      TallyPageConst(FreeChunks, t.cells, page, n, 1);
      TallyPageConst(Bytes, t.cells, page, n, 0);
    }
  }

  lemma AddLists(cf: Config, s: State, c: nat, page: Page)
    requires Lists(cf, s) && NewPage(s, page) && 1 <= c < |s.pages|
    ensures Lists(cf, AddPage(cf, s, c, page))
  {
    AddPages(cf, s, c, page);
    AddCells(cf, s, c, page);
    AddFree(cf, s, c, page);
    AddMover(cf, s, c, page);
    hide PagesOk, CellsOk, FreeOk, MoverOk, Tally;
    var t := AddPage(cf, s, c, page);
    forall k | 1 <= k < |t.pages|
      ensures |t.free[k]| == Tally(FreeChunks, t.cells, t.pages[k], cf.perslab[k])
      ensures t.requested[k] == Tally(Bytes, t.cells, t.pages[k], cf.perslab[k])
    {
      AddCounts(cf, s, c, page, k);
    }
  }

  // ----- the page pool -----

  /** The last page of the pool leaves it. */
  function DropPool(s: State): State
    requires s.pages != [] && s.pages[0] != []
  {
    var last := |s.pages[0]| - 1;
    s.(pages := s.pages[0 := s.pages[0][..last]], owner := s.owner - {s.pages[0][last]})
  }

  lemma DropPages(s: State)
    requires PagesOk(s) && s.pages != [] && s.pages[0] != []
    ensures PagesOk(DropPool(s)) && NewPage(DropPool(s), s.pages[0][|s.pages[0]| - 1])
  {
    var pool, last := s.pages[0], |s.pages[0]| - 1;
    var page := pool[last];
    assert page in pool && Distinct(pool);
    assert page !in pool[..last] && Distinct(pool[..last]);
    assert pool == pool[..last] + [page];
    hide Distinct;
    assert s.owner[page] == 0;
    var t := DropPool(s);
    forall c, p | 0 <= c < |t.pages| && p in t.pages[c]
      ensures p in t.owner && t.owner[p] == c
    {
      assert p in s.pages[c];
    }
    forall p | p in t.owner
      ensures t.owner[p] < |t.pages| && p in t.pages[t.owner[p]] && p < t.nextPage
    {
      assert p in s.pages[s.owner[p]];
    }
  }

  lemma DropCells(cf: Config, s: State)
    requires Shape(cf, s) && PagesOk(s) && CellsOk(cf, s) && FreeOk(s) && s.pages[0] != []
    ensures CellsOk(cf, DropPool(s)) && FreeOk(DropPool(s))
  {
    hide Distinct;
    assert s.pages[0][|s.pages[0]| - 1] in s.pages[0];
    assert s.owner[s.pages[0][|s.pages[0]| - 1]] == 0;
  }

  lemma DropMover(cf: Config, s: State)
    requires Shape(cf, s) && MoverOk(cf, s) && CountsOk(cf, s) && s.pages[0] != []
    ensures MoverOk(cf, DropPool(s)) && CountsOk(cf, DropPool(s))
  {
    hide Tally;
    var t := DropPool(s);
    assert forall p, i :: IsCleared(s, p, i) <==> IsCleared(t, p, i);
  }

  lemma DropLists(cf: Config, s: State)
    requires Lists(cf, s) && s.pages[0] != []
    ensures Lists(cf, DropPool(s)) && NewPage(DropPool(s), s.pages[0][|s.pages[0]| - 1])
  {
    hide PagesOk, CellsOk, FreeOk, MoverOk, CountsOk;
    DropPages(s);
    DropCells(cf, s);
    DropMover(cf, s);
  }

  // ----- memory -----

  lemma {:induction false} TotalUpdate(pages: seq<seq<Page>>, c: nat, x: seq<Page>)
    requires c < |pages|
    ensures Total(pages[c := x]) == Total(pages) - |pages[c]| + |x|
  {
    if c == 0 {
      assert pages[c := x][1..] == pages[1..];
    } else {
      assert pages[c := x][1..] == pages[1..][c - 1 := x];
      TotalUpdate(pages[1..], c - 1, x);
    }
  }

  lemma {:induction false} NonEmptyUpdate(pages: seq<seq<Page>>, c: nat, x: seq<Page>)
    requires c < |pages|
    ensures NonEmpty(pages[c := x]) == NonEmpty(pages) +
      (if c == 0 then 0 else (if x == [] then 0 else 1) - (if pages[c] == [] then 0 else 1))
  {
    var n := |pages| - 1;
    if n > 0 {
      if c == n {
        assert pages[c := x][..n] == pages[..n];
      } else {
        assert pages[c := x][..n] == pages[..n][c := x];
        NonEmptyUpdate(pages[..n], c, x);
      }
    }
  }

  /**
    Adding a page to a class: memory stays accounted for when the total grows by a
    page, and in bounds when the class had none or there is room.
   */
  lemma AddMemory(cf: Config, s: State, c: nat, page: Page)
    requires Shape(cf, s) && 1 <= c < |s.pages|
    ensures var t := AddPage(cf, s, c, page);
      && Total(t.pages) == Total(s.pages) + 1
      && NonEmpty(t.pages) == NonEmpty(s.pages) + (if s.pages[c] == [] then 1 else 0)
      && t.malloced == s.malloced && t.failed == s.failed
  {
    TotalUpdate(s.pages, c, s.pages[c] + [page]);
    NonEmptyUpdate(s.pages, c, s.pages[c] + [page]);
  }

  lemma MulAdd(a: nat, b: nat)
    ensures a * (b + 1) == a * b + a
  {}

  lemma GrowMemory(cf: Config, s: State, c: nat, page: Page)
    requires Shape(cf, s) && MemoryOk(cf, s) && 1 <= c < |s.pages| && !OverLimit(cf, s, c) && s.pages[0] == []
    ensures MemoryOk(cf, AddPage(cf, s.(malloced := s.malloced + cf.pageSize, nextPage := s.nextPage + 1), c, page))
  {
    hide Total, NonEmpty, AddPage;
    var s1 := s.(malloced := s.malloced + cf.pageSize, nextPage := s.nextPage + 1);
    AddMemory(cf, s1, c, page);
    MulAdd(cf.pageSize, Total(s.pages) + s.failed.all);
    MulAdd(cf.pageSize, NonEmpty(s.pages) + s.failed.bare);
  }

  lemma FailMemory(cf: Config, s: State, c: nat)
    requires Shape(cf, s) && MemoryOk(cf, s) && 1 <= c < |s.pages| && !OverLimit(cf, s, c) && s.pages[0] == []
    ensures MemoryOk(cf, MallocFails(cf, s, c))
  {
    hide Total, NonEmpty;
    MulAdd(cf.pageSize, Total(s.pages) + s.failed.all);
    MulAdd(cf.pageSize, NonEmpty(s.pages) + s.failed.bare);
  }

  lemma PoolMemory(cf: Config, s: State, c: nat, page: Page)
    requires Shape(cf, s) && MemoryOk(cf, s) && 1 <= c < |s.pages| && s.pages[0] != []
    ensures MemoryOk(cf, AddPage(cf, DropPool(s), c, page))
  {
    var s1, last := DropPool(s), |s.pages[0]| - 1;
    TotalUpdate(s.pages, 0, s.pages[0][..last]);
    NonEmptyUpdate(s.pages, 0, s.pages[0][..last]);
    AddMemory(cf, s1, c, page);
    MulAdd(cf.pageSize, NonEmpty(s.pages) + s.failed.bare);
    hide Total, NonEmpty, AddPage;
  }

  /** do_slabs_newslab */
  lemma NewSlabKeeps(cf: Config, s: State, c: nat, memory: bool)
    requires Base(cf, s) && 1 <= c < |s.pages|
    ensures Base(cf, NewSlab(cf, s, c, memory))
  {
    hide PagesOk, CellsOk, FreeOk, MoverOk, CountsOk, MemoryOk, AddPage;
    if OverLimit(cf, s, c) {
    } else if s.pages[0] != [] {
      var page := s.pages[0][|s.pages[0]| - 1];
      DropLists(cf, s);
      AddLists(cf, DropPool(s), c, page);
      PoolMemory(cf, s, c, page);
      FromPool(cf, s, c);
    } else if memory {
      var s1 := s.(malloced := s.malloced + cf.pageSize, nextPage := s.nextPage + 1);
      GrowLists(cf, s);
      AddLists(cf, s1, c, s.nextPage);
      GrowMemory(cf, s, c, s.nextPage);
    } else {
      MemoryFields(cf, s, MallocFails(cf, s, c).malloced, s.nextPage, MallocFails(cf, s, c).failed);
      FailMemory(cf, s, c);
    }
  }

  lemma FromPool(cf: Config, s: State, c: nat)
    requires Shape(cf, s) && s.pages[0] != [] && 1 <= c < |s.pages|
    ensures var last := |s.pages[0]| - 1;
      AddPage(cf, s.(pages := s.pages[0 := s.pages[0][..last]]), c, s.pages[0][last]) == AddPage(cf, DropPool(s), c,
        s.pages[0][last])
  {
    var page := s.pages[0][|s.pages[0]| - 1];
    assert s.owner[page := c] == (s.owner - {page})[page := c];
  }

  lemma GrowLists(cf: Config, s: State)
    requires Base(cf, s)
    ensures var s1 := s.(malloced := s.malloced + cf.pageSize, nextPage := s.nextPage + 1);
      Lists(cf, s1) && NewPage(s1, s.nextPage)
  {
    hide CellsOk, FreeOk, MoverOk, CountsOk, MemoryOk, Distinct;
    MemoryFields(cf, s, s.malloced + cf.pageSize, s.nextPage + 1, s.failed);
  }

  /** The memory total and the supply of pages do not matter for the lists. */
  lemma MemoryFields(cf: Config, s: State, malloced: nat, nextPage: Page, failed: Failures)
    requires Lists(cf, s) && s.nextPage <= nextPage
    ensures Lists(cf, s.(malloced := malloced, nextPage := nextPage, failed := failed))
  {
    hide PagesOk, CellsOk, FreeOk, MoverOk, CountsOk;
    MemoryFieldsPages(s, malloced, nextPage, failed);
    MemoryFieldsRest(cf, s, malloced, nextPage, failed);
  }

  lemma MemoryFieldsPages(s: State, malloced: nat, nextPage: Page, failed: Failures)
    requires PagesOk(s) && s.nextPage <= nextPage
    ensures PagesOk(s.(malloced := malloced, nextPage := nextPage, failed := failed))
  {
    hide Distinct;
  }

  lemma MemoryFieldsRest(cf: Config, s: State, malloced: nat, nextPage: Page, failed: Failures)
    requires Shape(cf, s) && CellsOk(cf, s) && FreeOk(s) && MoverOk(cf, s) && CountsOk(cf, s)
    ensures var s1 := s.(malloced := malloced, nextPage := nextPage, failed := failed);
      CellsOk(cf, s1) && FreeOk(s1) && MoverOk(cf, s1) && CountsOk(cf, s1)
  {
    hide Tally, Distinct;
    var s1 := s.(malloced := malloced, nextPage := nextPage, failed := failed);
    assert forall p, i :: IsCleared(s, p, i) <==> IsCleared(s1, p, i);
  }

  // ----- the end of a move -----

  /** The mover is through with the page: every chunk of it is cleared. */
  lemma DoneMeansCleared(cf: Config, s: State, a: Addr)
    requires Shape(cf, s) && PagesOk(s) && CellsOk(cf, s) && MoverOk(cf, s) && s.mover.Moving? && s.mover.done
    requires a in s.cells && a.page == s.mover.page
    ensures s.cells[a].Cleared?
  {
    var m := s.mover;
    assert m.page in s.pages[m.src];
    assert s.owner[m.page] == m.src;
    assert IsCleared(s, m.page, a.idx);
  }

  lemma TakePages(s: State)
    requires PagesOk(s) && s.mover.Moving? && s.mover.src < |s.pages| && s.pages[s.mover.src] != []
    requires s.pages[s.mover.src][0] == s.mover.page
    ensures PagesOk(TakePage(s)) && NewPage(TakePage(s), s.mover.page)
  {
    var m, list := s.mover, s.pages[s.mover.src];
    assert m.page in list && Distinct(list);
    DistinctTail(list);
    assert m.page !in list[1..];
    assert list == [m.page] + list[1..];
    hide Distinct;
    var t := TakePage(s);
    forall c, p | 0 <= c < |t.pages| && p in t.pages[c]
      ensures p in t.owner && t.owner[p] == c
    {
      assert p in s.pages[c];
    }
    forall p | p in t.owner
      ensures t.owner[p] < |t.pages| && p in t.pages[t.owner[p]] && p < t.nextPage
    {
      assert p in s.pages[s.owner[p]];
    }
  }

  lemma TakeCells(cf: Config, s: State)
    requires Shape(cf, s) && CellsOk(cf, s) && s.mover.Moving? && s.mover.src < |s.pages| && s.pages[s.mover.src] != []
    ensures CellsOk(cf, TakePage(s))
  {}

  ghost predicate VictimCleared(s: State) {
    s.mover.Moving? && forall a :: a in s.cells && a.page == s.mover.page ==> s.cells[a].Cleared?
  }

  lemma DoneIsCleared(cf: Config, s: State)
    requires Lists(cf, s) && s.mover.Moving? && s.mover.done
    ensures VictimCleared(s)
  {
    hide PagesOk, CellsOk, FreeOk, MoverOk, CountsOk;
    forall a | a in s.cells && a.page == s.mover.page
      ensures s.cells[a].Cleared?
    {
      DoneMeansCleared(cf, s, a);
    }
  }

  lemma TakeFree(s: State)
    requires FreeOk(s) && VictimCleared(s) && s.mover.src < |s.pages| && s.pages[s.mover.src] != []
    ensures FreeOk(TakePage(s))
  {
    hide Distinct;
  }

  lemma TakeMover(cf: Config, s: State)
    requires Shape(cf, s) && MoverOk(cf, s) && s.mover.Moving?
    ensures Shape(cf, TakePage(s)) && MoverOk(cf, TakePage(s))
  {}

  lemma TakeSame(s: State, k: nat)
    requires PagesOk(s) && s.mover.Moving? && s.mover.src < |s.pages| && s.pages[s.mover.src] != []
    requires s.pages[s.mover.src][0] == s.mover.page
    requires k < |s.pages|
    ensures SameOn(s.cells, TakePage(s).cells, TakePage(s).pages[k])
  {
    TakePages(s);
    hide Distinct;
    assert s.mover.page !in TakePage(s).pages[k];
  }

  lemma TakeCounts(cf: Config, s: State, k: nat)
    requires Shape(cf, s) && PagesOk(s) && MoverOk(cf, s) && s.mover.Moving? && s.mover.done && 1 <= k < |s.pages|
    requires |s.free[k]| == Tally(FreeChunks, s.cells, s.pages[k], cf.perslab[k])
    requires s.requested[k] == Tally(Bytes, s.cells, s.pages[k], cf.perslab[k])
    ensures var t := TakePage(s);
      && |t.free[k]| == Tally(FreeChunks, t.cells, t.pages[k], cf.perslab[k])
      && t.requested[k] == Tally(Bytes, t.cells, t.pages[k], cf.perslab[k])
  {
    hide PagesOk, Tally, SameOn;
    var m, t, n := s.mover, TakePage(s), cf.perslab[k];
    TakeSame(s, k);
    TallySame(FreeChunks, s.cells, t.cells, t.pages[k], n);
    TallySame(Bytes, s.cells, t.cells, t.pages[k], n);
    if k == m.src {
      forall i | 0 <= i < n
        ensures Weigh(FreeChunks, s.cells, Addr(m.page, i)) == 0 && Weigh(Bytes, s.cells, Addr(m.page, i)) == 0
      {
        assert IsCleared(s, m.page, i);
      }
      TallyPageConst(FreeChunks, s.cells, m.page, n, 0);
      TallyPageConst(Bytes, s.cells, m.page, n, 0);
      TallyFirst(FreeChunks, s.cells, s.pages[k], n);
      TallyFirst(Bytes, s.cells, s.pages[k], n);
    }
  }

  lemma TallyFirst(m: Measure, cells: map<Addr, Cell>, pages: seq<Page>, n: nat)
    requires pages != []
    ensures Tally(m, cells, pages, n) == TallyPage(m, cells, pages[0], n) + Tally(m, cells, pages[1..], n)
  {}

  lemma TakeLists(cf: Config, s: State)
    requires Lists(cf, s) && s.mover.Moving? && s.mover.done
    ensures Lists(cf, TakePage(s)) && NewPage(TakePage(s), s.mover.page)
  {
    hide PagesOk, CellsOk, FreeOk, Tally;
    TakePages(s);
    TakeCells(cf, s);
    DoneIsCleared(cf, s);
    TakeFree(s);
    TakeMover(cf, s);
    var t := TakePage(s);
    forall k | 1 <= k < |t.pages|
      ensures |t.free[k]| == Tally(FreeChunks, t.cells, t.pages[k], cf.perslab[k])
      ensures t.requested[k] == Tally(Bytes, t.cells, t.pages[k], cf.perslab[k])
    {
      TakeCounts(cf, s, k);
    }
  }

  /** A page enters the pool. */
  function PoolPage(s: State, page: Page): State
    requires s.pages != []
  {
    s.(pages := s.pages[0 := s.pages[0] + [page]], owner := s.owner[page := 0])
  }

  lemma PoolLists(cf: Config, s: State, page: Page)
    requires Lists(cf, s) && NewPage(s, page)
    ensures Lists(cf, PoolPage(s, page))
  {
    hide PagesOk, CellsOk, FreeOk, MoverOk, CountsOk;
    PoolPages(s, page);
    PoolCells(cf, s, page);
    PoolMover(cf, s, page);
  }

  lemma PoolMover(cf: Config, s: State, page: Page)
    requires Shape(cf, s) && MoverOk(cf, s) && CountsOk(cf, s)
    ensures Shape(cf, PoolPage(s, page)) && MoverOk(cf, PoolPage(s, page)) && CountsOk(cf, PoolPage(s, page))
  {
    hide Tally;
    var t := PoolPage(s, page);
    assert forall p, i :: IsCleared(s, p, i) <==> IsCleared(t, p, i);
  }

  lemma PoolPages(s: State, page: Page)
    requires PagesOk(s) && NewPage(s, page) && s.pages != []
    ensures PagesOk(PoolPage(s, page))
  {
    assert page !in s.pages[0];
    DistinctAppend(s.pages[0], [page]);
    hide Distinct;
    var t := PoolPage(s, page);
    assert forall p :: p in t.pages[0] <==> p in s.pages[0] || p == page;
  }

  lemma PoolCells(cf: Config, s: State, page: Page)
    requires Shape(cf, s) && CellsOk(cf, s) && FreeOk(s) && NewPage(s, page)
    ensures Shape(cf, PoolPage(s, page)) && CellsOk(cf, PoolPage(s, page)) && FreeOk(PoolPage(s, page))
  {
    hide Distinct;
  }

  /**
    Taking the page and giving it to another class or to the pool: no memory is
    gained or lost, and no class becomes empty.
   */
  lemma MovedMemory(cf: Config, s: State)
    requires Base(cf, s) && s.mover.Moving?
    ensures var t := TakePage(s);
      && Total(t.pages) + 1 == Total(s.pages) && NonEmpty(t.pages) == NonEmpty(s.pages)
      && t.malloced == s.malloced && t.failed == s.failed && Shape(cf, t) && |t.pages| == |s.pages|
  {
    var m := s.mover;
    TotalUpdate(s.pages, m.src, s.pages[m.src][1..]);
    NonEmptyUpdate(s.pages, m.src, s.pages[m.src][1..]);
  }

  /** memory_release */
  lemma {:induction false} ReleaseKeeps(cf: Config, s: State)
    requires Base(cf, s)
    ensures Base(cf, Release(cf, s)) && Release(cf, s).mover == s.mover && Release(cf, s).cells == s.cells
    decreases |s.pages[0]|
  {
    hide PagesOk, CellsOk, FreeOk, MoverOk, CountsOk;
    if s.malloced > cf.limit && s.pages[0] != [] && s.malloced >= cf.pageSize {
      var last := |s.pages[0]| - 1;
      var t := DropPool(s).(malloced := s.malloced - cf.pageSize);
      DropLists(cf, s);
      MemoryFields(cf, DropPool(s), s.malloced - cf.pageSize, s.nextPage, s.failed);
      ReleasedMemory(cf, s);
      ReleaseKeeps(cf, t);
    }
  }

  lemma ReleasedMemory(cf: Config, s: State)
    requires Shape(cf, s) && MemoryOk(cf, s) && s.pages[0] != [] && s.malloced >= cf.pageSize && s.malloced > cf.limit
    ensures MemoryOk(cf, DropPool(s).(malloced := s.malloced - cf.pageSize))
  {
    var last := |s.pages[0]| - 1;
    TotalUpdate(s.pages, 0, s.pages[0][..last]);
    NonEmptyUpdate(s.pages, 0, s.pages[0][..last]);
    hide Total, NonEmpty;
    MulAdd(cf.pageSize, Total(DropPool(s).pages) + s.failed.all);
  }

  lemma PoolPageMemory(cf: Config, s: State)
    requires Base(cf, s) && s.mover.Moving?
    ensures MemoryOk(cf, PoolPage(TakePage(s), s.mover.page))
  {
    hide PagesOk, CellsOk, FreeOk, CountsOk;
    MovedMemory(cf, s);
    var t := TakePage(s);
    TotalUpdate(t.pages, 0, t.pages[0] + [s.mover.page]);
    NonEmptyUpdate(t.pages, 0, t.pages[0] + [s.mover.page]);
  }

  lemma AddPageMemory(cf: Config, s: State)
    requires Base(cf, s) && s.mover.Moving? && s.mover.dst >= 1
    ensures MemoryOk(cf, AddPage(cf, TakePage(s), s.mover.dst, s.mover.page))
  {
    hide PagesOk, CellsOk, FreeOk, CountsOk, Total, NonEmpty, AddPage, TakePage;
    MovedMemory(cf, s);
    var t := TakePage(s);
    AddMemory(cf, t, s.mover.dst, s.mover.page);
    MulAdd(cf.pageSize, NonEmpty(s.pages) + s.failed.bare);
  }

  /** slab_rebalance_finish */
  lemma FinishKeeps(cf: Config, s: State)
    requires Base(cf, s) && s.mover.Moving? && s.mover.done
    ensures s.pages[s.mover.src] != [] && s.mover.dst < |s.pages|
    ensures Base(cf, Finish(cf, s))
  {
    hide PagesOk, CellsOk, FreeOk, CountsOk, MemoryOk, AddPage, TakePage;
    var m := s.mover;
    TakeLists(cf, s);
    var t := TakePage(s);
    if m.dst == 0 {
      PoolLists(cf, t, m.page);
      PoolPageMemory(cf, s);
      ReleaseKeeps(cf, PoolPage(t, m.page));
    } else {
      AddLists(cf, t, m.dst, m.page);
      AddPageMemory(cf, s);
    }
  }
}
