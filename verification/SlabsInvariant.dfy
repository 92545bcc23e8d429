/** What holds in every reachable state of the slab allocator and its page mover. */
module SlabsInvariant {
  import opened SlabsTypes
  import opened SlabsSteps
  import opened LruSpec

  // ----- sums over the chunks of a class -----

  datatype Measure = FreeChunks | UsedChunks | ClearedChunks | Bytes

  function Weigh(m: Measure, cells: map<Addr, Cell>, a: Addr): nat {
    if a !in cells then 0
    else match m
      case FreeChunks => if cells[a].Free? then 1 else 0
      case UsedChunks => if InUse(cells[a]) then 1 else 0
      case ClearedChunks => if cells[a].Cleared? then 1 else 0
      case Bytes => Req(cells[a])
  }

  function TallyPage(m: Measure, cells: map<Addr, Cell>, page: Page, n: nat): nat {
    if n == 0 then 0 else TallyPage(m, cells, page, n - 1) + Weigh(m, cells, Addr(page, n - 1))
  }

  function Tally(m: Measure, cells: map<Addr, Cell>, pages: seq<Page>, n: nat): nat {
    if pages == [] then 0 else TallyPage(m, cells, pages[0], n) + Tally(m, cells, pages[1..], n)
  }

  // ----- the invariant -----

  ghost predicate Shape(cf: Config, s: State) {
    cf.Valid() && |s.pages| == |s.free| == |s.requested| == |cf.perslab|
  }

  /** Every page is in exactly one slab_list, once. */
  ghost predicate PagesOk(s: State) {
    && (forall c :: 0 <= c < |s.pages| ==> Distinct(s.pages[c]))
    && (forall c, p :: 0 <= c < |s.pages| && p in s.pages[c] ==> p in s.owner && s.owner[p] == c)
    && (forall p :: p in s.owner ==> s.owner[p] < |s.pages| && p in s.pages[s.owner[p]] && p < s.nextPage)
  }

  /** Chunks exist exactly at the places the classes cut their pages into. */
  ghost predicate CellsOk(cf: Config, s: State)
    requires Shape(cf, s)
  {
    && (forall a :: a in s.cells ==>
         a.page in s.owner && 1 <= s.owner[a.page] < |cf.perslab| && a.idx < cf.perslab[s.owner[a.page]])
    && (forall a: Addr {:trigger a in s.cells} ::
          a.page in s.owner && 1 <= s.owner[a.page] < |cf.perslab| && a.idx < cf.perslab[s.owner[a.page]] ==>
            a in s.cells)
  }

  /** The free lists hold exactly the free chunks of their classes, once each. */
  ghost predicate FreeOk(s: State) {
    && (forall c :: 0 <= c < |s.free| ==> Distinct(s.free[c]))
    && (forall c, a :: 0 <= c < |s.free| && a in s.free[c] ==>
         a in s.cells && s.cells[a].Free? && a.page in s.owner && s.owner[a.page] == c)
    && (forall a :: a in s.cells && s.cells[a].Free? ==>
         a.page in s.owner && s.owner[a.page] < |s.free| && a in s.free[s.owner[a.page]])
  }

  /** LINKED items, the hash table and the LRU agree. */
  ghost predicate ItemsOk(s: State) {
    && (forall k :: k in s.table ==>
         IsItem(s, s.table[k]) && s.cells[s.table[k]].linked && s.cells[s.table[k]].data.key == k)
    && (forall a :: IsItem(s, a) && s.cells[a].linked ==>
         s.cells[a].data.key in s.table && s.table[s.cells[a].data.key] == a)
    && (forall a :: a in s.lru <==> IsItem(s, a) && s.cells[a].linked)
  }

  /** Items are referenced, except those in loose, which are on their way to the free list. */
  ghost predicate RefsOk(s: State, loose: set<Addr>) {
    forall a :: IsItem(s, a) && a !in loose ==> s.cells[a].refs >= 1
  }

  /** Items and their chunks point to each other; chunks in loose have lost their item. */
  ghost predicate ChainOk(s: State, loose: set<Addr>) {
    PartsOk(s, loose) && ChainsOk(s) && HeadsOk(s, loose)
  }

  ghost predicate PartsOk(s: State, loose: set<Addr>) {
    forall a, p :: IsItem(s, a) && p in s.cells[a].parts ==>
      p in s.cells && s.cells[p].Part? && s.cells[p].head == a && p !in loose
  }

  ghost predicate ChainsOk(s: State) {
    forall a :: IsItem(s, a) ==> Distinct(s.cells[a].parts) && WholeOk(s.cells[a])
  }

  /** Only chunked items have chunks, and one that is linked has some. */
  predicate WholeOk(it: Cell)
    requires it.Item?
  {
    (it.parts != [] ==> it.chunked) && (it.chunked && it.linked ==> it.parts != [])
  }

  ghost predicate HeadsOk(s: State, loose: set<Addr>) {
    forall p :: p in s.cells && s.cells[p].Part? && p !in loose ==>
      IsItem(s, s.cells[p].head) && p in s.cells[s.cells[p].head].parts
  }

  predicate IsCleared(s: State, page: Page, i: int) {
    i >= 0 && Addr(page, i) in s.cells && s.cells[Addr(page, i)].Cleared?
  }

  /**
    The victim is the first page of its class, and a pass that met nothing busy has
    cleared all chunks behind the cursor.
   */
  ghost predicate MoverOk(cf: Config, s: State)
    requires Shape(cf, s)
  {
    && (forall a :: a in s.cells && s.cells[a].Cleared? ==> s.mover.Moving? && a.page == s.mover.page)
    && (s.mover.Moving? ==>
        var m := s.mover;
        && 1 <= m.src < |s.pages| && m.dst < |s.pages| && m.src != m.dst
        && |s.pages[m.src]| >= 2 && s.pages[m.src][0] == m.page
        && (if m.done then m.pos == cf.perslab[m.src] && m.busy == 0 && m.rescue.NoRescue?
             else m.pos < cf.perslab[m.src])
        && (m.busy == 0 ==> forall i :: 0 <= i < m.pos ==> IsCleared(s, m.page, i)))
  }

  /** The item being moved is locked: linked, referenced by the table and the mover only. */
  ghost predicate RescueOk(s: State) {
    s.mover.Moving? && s.mover.rescue.Rescue? ==>
      var m, r := s.mover, s.mover.rescue;
      && IsItem(s, r.it) && s.cells[r.it].linked && s.cells[r.it].refs == 2
      && (r.part.None? ==> r.it == Addr(m.page, m.pos))
      && (r.part.Some? ==> r.part.value == Addr(m.page, m.pos) && r.part.value in s.cells[r.it].parts)
      && (r.to.Some? ==> var n := r.to.value;
          IsItem(s, n) && !s.cells[n].linked && s.cells[n].refs == 1 && s.cells[n].parts == [] && !s.cells[n].chunked
          && n.page != m.page && n.page in s.owner && s.owner[n.page] == m.src)
  }

  /** sl_curr and requested are what a count over the class's chunks gives. */
  ghost predicate CountsOk(cf: Config, s: State)
    requires Shape(cf, s)
  {
    && (forall c :: 1 <= c < |s.pages| ==> |s.free[c]| == Tally(FreeChunks, s.cells, s.pages[c], cf.perslab[c]))
    && (forall c :: 1 <= c < |s.pages| ==> s.requested[c] == Tally(Bytes, s.cells, s.pages[c], cf.perslab[c]))
  }

  function Total(pages: seq<seq<Page>>): nat {
    if pages == [] then 0 else |pages[0]| + Total(pages[1..])
  }

  /** How many slab classes other than the pool have a page. */
  function NonEmpty(pages: seq<seq<Page>>): nat {
    if |pages| <= 1 then 0 else NonEmpty(pages[..|pages| - 1]) + (if pages[|pages| - 1] == [] then 0 else 1)
  }

  /** malloced counts every page and every malloc that failed. */
  ghost predicate MemoryOk(cf: Config, s: State) {
    && s.failed.bare <= s.failed.all
    && s.malloced == cf.pageSize * (Total(s.pages) + s.failed.all)
    && (cf.limit > 0 ==> s.malloced <= cf.limit + cf.pageSize * (NonEmpty(s.pages) + s.failed.bare))
  }

  /** Pages, chunks, lists and counts. */
  ghost predicate Base(cf: Config, s: State) {
    Shape(cf, s) && PagesOk(s) && CellsOk(cf, s) && FreeOk(s) && MoverOk(cf, s) && CountsOk(cf, s) && MemoryOk(cf, s)
  }

  /** Items and their chunks, but for those in loose. */
  ghost predicate Heap(s: State, loose: set<Addr>) {
    ItemsOk(s) && RefsOk(s, loose) && ChainOk(s, loose) && RescueOk(s)
  }

  ghost predicate Inv(cf: Config, s: State) {
    Base(cf, s) && Heap(s, {})
  }

  // ----- what the invariant says about one class -----

  lemma {:induction false} PageAddsUp(cells: map<Addr, Cell>, page: Page, n: nat)
    requires forall i :: 0 <= i < n ==> Addr(page, i) in cells
    ensures TallyPage(FreeChunks, cells, page, n) + TallyPage(UsedChunks, cells, page, n)
          + TallyPage(ClearedChunks, cells, page, n) == n
  {
    if n > 0 {
      PageAddsUp(cells, page, n - 1);
    }
  }

  lemma MulSucc(k: nat, n: nat)
    ensures (k + 1) * n == n + k * n
  {}

  lemma {:induction false} ClassAddsUp(cells: map<Addr, Cell>, pages: seq<Page>, n: nat)
    requires forall p, i :: p in pages && 0 <= i < n ==> Addr(p, i) in cells
    ensures Tally(FreeChunks, cells, pages, n) + Tally(UsedChunks, cells, pages, n)
          + Tally(ClearedChunks, cells, pages, n) == |pages| * n
  {
    if pages != [] {
      assert forall p :: p in pages[1..] ==> p in pages;
      ClassAddsUp(cells, pages[1..], n);
      assert pages[0] in pages;
      PageAddsUp(cells, pages[0], n);
      MulSucc(|pages[1..]|, n);
    }
  }

  /**
    Every chunk of a class is on its free list, handed out, or cleared by the mover;
    requested is the sum over the chunks handed out.
   */
  lemma ClassBalance(cf: Config, s: State, c: nat)
    requires Inv(cf, s) && 1 <= c < |s.pages|
    ensures |s.pages[c]| * cf.perslab[c] ==
      |s.free[c]| + Tally(UsedChunks, s.cells, s.pages[c], cf.perslab[c])
      + Tally(ClearedChunks, s.cells, s.pages[c], cf.perslab[c])
    ensures s.requested[c] == Tally(Bytes, s.cells, s.pages[c], cf.perslab[c])
  {
    hide FreeOk, MoverOk, MemoryOk, Heap, Tally, Distinct;
    ClassAddsUp(s.cells, s.pages[c], cf.perslab[c]);
  }

  // ----- how one changed chunk changes a sum -----

  lemma {:induction false} TallyPageUpdate(m: Measure, cells: map<Addr, Cell>, page: Page, n: nat, a: Addr, c: Cell)
    ensures TallyPage(m, cells[a := c], page, n) + (if a.page == page && a.idx < n then Weigh(m, cells, a) else 0)
      == TallyPage(m, cells, page, n) + (if a.page == page && a.idx < n then Weigh(m, cells[a := c], a) else 0)
  {
    if n > 0 {
      TallyPageUpdate(m, cells, page, n - 1, a, c);
    }
  }

  lemma {:induction false} TallyUpdate(m: Measure, cells: map<Addr, Cell>, pages: seq<Page>, n: nat, a: Addr, c: Cell)
    requires Distinct(pages)
    ensures Tally(m, cells[a := c], pages, n) + (if a.page in pages && a.idx < n then Weigh(m, cells, a) else 0)
      == Tally(m, cells, pages, n) + (if a.page in pages && a.idx < n then Weigh(m, cells[a := c], a) else 0)
  {
    if pages != [] {
      TallyPageUpdate(m, cells, pages[0], n, a, c);
      DistinctTail(pages);
      assert pages[0] !in pages[1..];
      TallyUpdate(m, cells, pages[1..], n, a, c);
      assert pages == [pages[0]] + pages[1..];
    }
  }

  /** The two memories agree on the pages. */
  ghost predicate SameOn(cells: map<Addr, Cell>, cells': map<Addr, Cell>, pages: seq<Page>) {
    forall a: Addr :: a.page in pages ==> (a in cells <==> a in cells') && (a in cells ==> cells[a] == cells'[a])
  }

  lemma {:induction false} TallyPageSame(m: Measure, cells: map<Addr, Cell>, cells': map<Addr, Cell>,
                                         page: Page, n: nat)
    requires forall i :: 0 <= i < n ==> Weigh(m, cells, Addr(page, i)) == Weigh(m, cells', Addr(page, i))
    ensures TallyPage(m, cells, page, n) == TallyPage(m, cells', page, n)
  {
    if n > 0 {
      TallyPageSame(m, cells, cells', page, n - 1);
    }
  }

  lemma {:induction false} TallySame(m: Measure, cells: map<Addr, Cell>, cells': map<Addr, Cell>,
                                     pages: seq<Page>, n: nat)
    requires SameOn(cells, cells', pages)
    ensures Tally(m, cells, pages, n) == Tally(m, cells', pages, n)
  {
    if pages != [] {
      assert pages[0] in pages;
      TallyPageSame(m, cells, cells', pages[0], n);
      assert forall p :: p in pages[1..] ==> p in pages;
      TallySame(m, cells, cells', pages[1..], n);
    }
  }

  lemma {:induction false} TallySnoc(m: Measure, cells: map<Addr, Cell>, pages: seq<Page>, page: Page, n: nat)
    ensures Tally(m, cells, pages + [page], n) == Tally(m, cells, pages, n) + TallyPage(m, cells, page, n)
  {
    if pages == [] {
      assert pages + [page] == [page];
      assert Tally(m, cells, [page], n) == TallyPage(m, cells, page, n) + Tally(m, cells, [page][1..], n);
    } else {
      assert (pages + [page])[1..] == pages[1..] + [page];
      TallySnoc(m, cells, pages[1..], page, n);
    }
  }

  lemma {:induction false} TallyPageConst(m: Measure, cells: map<Addr, Cell>, page: Page, n: nat, w: nat)
    requires forall i :: 0 <= i < n ==> Weigh(m, cells, Addr(page, i)) == w
    ensures TallyPage(m, cells, page, n) == w * n
  {
    if n > 0 {
      TallyPageConst(m, cells, page, n - 1, w);
      assert w * n == w * (n - 1) + w;
    }
  }
}
