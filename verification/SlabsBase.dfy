/** How changes of single chunks and whole pages keep lists, counts and the mover's progress right. */
module SlabsBase {
  import opened SlabsTypes
  import opened SlabsSteps
  import opened SlabsInvariant
  import opened LruSpec

  /** The state with one chunk changed and its class's free list and byte count adjusted to that. */
  function Put(s: State, a: Addr, c: Cell): State
    requires Known(s, a)
  {
    var k := s.owner[a.page];
    s.(cells := s.cells[a := c],
       free := if s.cells[a].Free? == c.Free? then s.free
               else s.free[k := if c.Free? then [a] + s.free[k] else Without(s.free[k], a)],
       requested := s.requested[k := s.requested[k] + Req(c) - Req(s.cells[a])])
  }

  /** Cleared chunks stay cleared, and only chunks of the victim page get cleared. */
  predicate MayPut(s: State, a: Addr, c: Cell) {
    && Known(s, a)
    && (s.cells[a].Cleared? ==> c.Cleared?)
    && (c.Cleared? ==> s.mover.Moving? && a.page == s.mover.page)
  }

  /** The free list of class k has the free chunks of that class, once each. */
  ghost predicate FreeListOk(s: State, k: nat)
    requires k < |s.free|
  {
    && Distinct(s.free[k])
    && forall x :: x in s.free[k] ==> x in s.cells && s.cells[x].Free? && x.page in s.owner && s.owner[x.page] == k
  }

  lemma FreeLists(s: State, k: nat)
    requires FreeOk(s) && k < |s.free|
    ensures FreeListOk(s, k)
    ensures forall x :: x in s.cells && s.cells[x].Free? && x.page in s.owner && s.owner[x.page] == k ==> x in s.free[k]
  {
    hide Distinct;
  }

  lemma PutFreeLists(s: State, a: Addr, c: Cell, k: nat)
    requires FreeOk(s) && MayPut(s, a, c) && k < |s.free|
    ensures Distinct(Put(s, a, c).free[k])
    ensures var t := Put(s, a, c);
      forall x :: x in t.free[k] ==> x in t.cells && t.cells[x].Free? && x.page in t.owner && t.owner[x.page] == k
  {
    hide Distinct, Without, FreeOk;
    FreeLists(s, k);
    if s.cells[a].Free? != c.Free? && s.owner[a.page] == k {
      WithoutFacts(s.free[k], a);
      if c.Free? {
        DistinctCons(a, s.free[k]);
      }
    }
  }

  lemma DistinctCons<T>(x: T, xs: seq<T>)
    requires Distinct(xs) && x !in xs
    ensures Distinct([x] + xs)
  {}

  lemma WithoutFacts<T>(xs: seq<T>, x: T)
    requires Distinct(xs)
    ensures Distinct(Without(xs, x))
    ensures forall y :: y in Without(xs, x) <==> y in xs && y != x
    ensures |Without(xs, x)| == |xs| - (if x in xs then 1 else 0)
  {
    if x in xs {
      var k :| 0 <= k < |xs| && xs[k] == x;
      WithoutAt(xs, k);
      DistinctWithoutAt(xs, k);
    } else {
      WithoutAbsent(xs, x);
    }
  }

  lemma PutFree(s: State, a: Addr, c: Cell)
    requires FreeOk(s) && MayPut(s, a, c)
    ensures FreeOk(Put(s, a, c))
  {
    var t := Put(s, a, c);
    forall k | 0 <= k < |t.free|
      ensures Distinct(t.free[k])
      ensures forall x :: x in t.free[k] ==>
        x in t.cells && t.cells[x].Free? && x.page in t.owner && t.owner[x.page] == k
    {
      PutFreeLists(s, a, c, k);
    }
    WithoutFacts(s.free[s.owner[a.page]], a);
    hide Distinct, Without;
  }

  /** Where a chunk is, what list it is on, and what that means for its class. */
  lemma Place(cf: Config, s: State, a: Addr, k: nat)
    requires Shape(cf, s) && PagesOk(s) && CellsOk(cf, s) && FreeOk(s) && a in s.cells && 1 <= k < |s.pages|
    ensures a.page in s.owner && 1 <= s.owner[a.page] < |s.pages| && a.idx < cf.perslab[s.owner[a.page]] && Known(s, a)
    ensures a.page in s.pages[k] <==> s.owner[a.page] == k
    ensures a in s.free[s.owner[a.page]] <==> s.cells[a].Free?
    ensures Distinct(s.free[s.owner[a.page]]) && Distinct(s.pages[k])
  {}

  lemma PutCounts(cf: Config, s: State, a: Addr, c: Cell, k: nat)
    requires Shape(cf, s) && PagesOk(s) && CellsOk(cf, s) && FreeOk(s) && MayPut(s, a, c) && 1 <= k < |s.pages|
    requires |s.free[k]| == Tally(FreeChunks, s.cells, s.pages[k], cf.perslab[k])
    requires s.requested[k] == Tally(Bytes, s.cells, s.pages[k], cf.perslab[k])
    ensures var t := Put(s, a, c);
      && |t.free[k]| == Tally(FreeChunks, t.cells, t.pages[k], cf.perslab[k])
      && t.requested[k] == Tally(Bytes, t.cells, t.pages[k], cf.perslab[k])
  {
    hide Distinct, Without, Tally, PagesOk, CellsOk, FreeOk;
    Place(cf, s, a, k);
    TallyUpdate(FreeChunks, s.cells, s.pages[k], cf.perslab[k], a, c);
    TallyUpdate(Bytes, s.cells, s.pages[k], cf.perslab[k], a, c);
    WithoutFacts(s.free[s.owner[a.page]], a);
  }

  lemma PutCountsOk(cf: Config, s: State, a: Addr, c: Cell)
    requires Base(cf, s) && MayPut(s, a, c)
    ensures CountsOk(cf, Put(s, a, c))
  {
    hide Tally, PagesOk, CellsOk, FreeOk, MoverOk, MemoryOk, Put;
    PutShape(cf, s, a, c);
    var t := Put(s, a, c);
    forall k | 1 <= k < |t.pages|
      ensures |t.free[k]| == Tally(FreeChunks, t.cells, t.pages[k], cf.perslab[k])
      ensures t.requested[k] == Tally(Bytes, t.cells, t.pages[k], cf.perslab[k])
    {
      PutCounts(cf, s, a, c, k);
    }
  }

  lemma PutShape(cf: Config, s: State, a: Addr, c: Cell)
    requires Shape(cf, s) && Known(s, a)
    ensures var t := Put(s, a, c); Shape(cf, t) && t.pages == s.pages && t.owner == s.owner
    ensures PagesOk(s) ==> PagesOk(Put(s, a, c))
    ensures CellsOk(cf, s) ==> CellsOk(cf, Put(s, a, c))
    ensures MemoryOk(cf, s) ==> MemoryOk(cf, Put(s, a, c))
  {
    hide PagesOk, CellsOk, MemoryOk, Put;
    PutFields(s, a, c);
    PutPages(s, Put(s, a, c));
    PutCells(cf, s, Put(s, a, c));
    PutMemory(cf, s, Put(s, a, c));
  }

  lemma PutFields(s: State, a: Addr, c: Cell)
    requires Known(s, a)
    ensures var t := Put(s, a, c);
      && t.pages == s.pages && t.owner == s.owner && t.nextPage == s.nextPage
      && t.malloced == s.malloced && t.failed == s.failed && t.cells.Keys == s.cells.Keys
      && |t.free| == |s.free| && |t.requested| == |s.requested|
  {
    hide Without;
  }

  lemma PutPages(s: State, t: State)
    requires t.pages == s.pages && t.owner == s.owner && t.nextPage == s.nextPage
    ensures PagesOk(s) ==> PagesOk(t)
  {
    hide Distinct;
  }

  lemma PutCells(cf: Config, s: State, t: State)
    requires Shape(cf, s) && Shape(cf, t) && t.owner == s.owner && t.cells.Keys == s.cells.Keys
    ensures CellsOk(cf, s) ==> CellsOk(cf, t)
  {
    assert forall a :: a in t.cells <==> a in s.cells;
  }

  lemma PutMemory(cf: Config, s: State, t: State)
    requires t.pages == s.pages && t.malloced == s.malloced && t.failed == s.failed
    ensures MemoryOk(cf, s) ==> MemoryOk(cf, t)
  {
    hide Total, NonEmpty;
  }

  lemma PutMover(cf: Config, s: State, a: Addr, c: Cell)
    requires Shape(cf, s) && MoverOk(cf, s) && MayPut(s, a, c)
    ensures Shape(cf, Put(s, a, c)) && MoverOk(cf, Put(s, a, c))
  {
    var t := Put(s, a, c);
    assert forall page, i :: IsCleared(s, page, i) ==> IsCleared(t, page, i);
  }

  /** Any admissible change of a chunk keeps the books right. */
  lemma PutBase(cf: Config, s: State, a: Addr, c: Cell)
    requires Base(cf, s) && MayPut(s, a, c)
    ensures Base(cf, Put(s, a, c))
  {
    hide Shape, FreeOk, MoverOk, CountsOk, PagesOk, CellsOk, MemoryOk, Put;
    PutFree(s, a, c);
    PutMover(cf, s, a, c);
    PutShape(cf, s, a, c);
    PutCountsOk(cf, s, a, c);
  }
}
