/** slabs.c as it updates memory: the loops and in-place updates behind the steps of SlabsSteps. */
module SlabsAllocator {
  import opened SlabsTypes
  import opened SlabsSteps
  import opened SlabsPages
  import opened SlabsInvariant
  import SlabsProgress
  import SlabsProofs
  import SlabsTheorems
  import SlabsTransfers
  import opened LruSpec

  class Allocator {
    const cf: Config
    var pages: seq<seq<Page>>
    var free: seq<seq<Addr>>
    var requested: seq<int>
    var owner: map<Page, nat>
    var cells: map<Addr, Cell>
    var table: map<Key, Addr>
    var lru: set<Addr>
    var malloced: nat
    var nextPage: Page
    var mover: Mover
    ghost var failed: Failures

    ghost function View(): State
      reads this
    {
      State(pages, free, requested, owner, cells, table, lru, malloced, nextPage, mover, failed)
    }

    predicate Sized()
      reads this
    {
      |pages| == |free| == |requested| == |cf.perslab| == |cf.size| && |cf.perslab| >= 1
    }

    constructor (cf: Config)
      requires cf.Valid()
      ensures this.cf == cf && Sized()
      ensures View() == State(pages, free, requested, map[], map[], map[], {}, 0, 0, Idle, Failures(0, 0))
      ensures forall c :: 0 <= c < |pages| ==> pages[c] == [] && free[c] == [] && requested[c] == 0
    {
      this.cf := cf;
      var n := |cf.perslab|;
      pages, free, requested := seq(n, _ => []), seq(n, _ => []), seq(n, _ => 0);
      owner, cells, table, lru, malloced, nextPage, mover := map[], map[], map[], {}, 0, 0, Idle;
      failed := Failures(0, 0);
    }

    /**
      slabs_clsid: the smallest class whose chunks are large enough, the largest
      class for anything bigger, 0 for what cannot be stored.
     */
    method ClassFor(size: nat, itemSizeMax: nat) returns (id: nat)
      requires |cf.size| >= 2
      ensures id == 0 <==> size == 0 || size > itemSizeMax
      ensures id > 0 ==> id < |cf.size| && (size <= cf.size[id] || id == |cf.size| - 1)
      ensures forall c :: 1 <= c < id ==> cf.size[c] < size
    {
      if size == 0 || size > itemSizeMax {
        return 0;
      }
      id := 1;
      while size > cf.size[id]
        invariant 1 <= id < |cf.size| && forall c :: 1 <= c < id ==> cf.size[c] < size
        decreases |cf.size| - id
      {
        if id == |cf.size| - 1 {
          return;
        }
        id := id + 1;
      }
    }

    /** split_slab_page_into_freelist */
    method SplitPage(page: Page, c: nat)
      requires Sized() && 1 <= c < |free|
      modifies `cells, `free
      ensures cells == old(cells) + FreshCells(page, cf.perslab[c])
      ensures free == old(free)[c := FreshList(page, cf.perslab[c]) + old(free)[c]]
    {
      hide FreshCells;
      FreshCellsStep(page, 0);
      assert old(cells) + FreshCells(page, 0) == old(cells);
      assert FreshList(page, 0) + free[c] == free[c];
      for x := 0 to cf.perslab[c]
        invariant Sized() && cells == old(cells) + FreshCells(page, x)
        invariant free == old(free)[c := FreshList(page, x) + old(free)[c]]
      {
        FreshCellsStep(page, x + 1);
        cells := cells[Addr(page, x) := Free];
        free := free[c := [Addr(page, x)] + free[c]];
        assert FreshList(page, x + 1) + old(free)[c] == [Addr(page, x)] + (FreshList(page, x) + old(free)[c]);
      }
    }

    /** get_page_from_global_pool */
    method PoolPage() returns (page: Option<Page>)
      requires 0 < |pages|
      modifies `pages
      ensures page.None? <==> old(pages)[0] == []
      ensures page.None? ==> pages == old(pages)
      ensures page.Some? ==>
        |pages| == |old(pages)| && pages == old(pages)[0 := pages[0]] && old(pages)[0] == pages[0] + [page.value]
    {
      if pages[0] == [] {
        return None;
      }
      var last := |pages[0]| - 1;
      page := Some(pages[0][last]);
      pages := pages[0 := pages[0][..last]];
    }

    /** memory_allocate: the total grows by a page even when malloc fails. */
    method MemoryAllocate(memory: bool, ghost bare: bool) returns (page: Option<Page>)
      modifies `malloced, `nextPage, `failed
      ensures malloced == old(malloced) + cf.pageSize
      ensures page.Some? <==> memory
      ensures page.Some? ==> page.value == old(nextPage) && nextPage == old(nextPage) + 1 && failed == old(failed)
      ensures page.None? ==>
        nextPage == old(nextPage) && failed == Failures(old(failed).all + 1, old(failed).bare + if bare then 1 else 0)
    {
      page := None;
      if memory {
        page := Some(nextPage);
        nextPage := nextPage + 1;
      } else {
        failed := Failures(failed.all + 1, failed.bare + if bare then 1 else 0);
      }
      malloced := malloced + cf.pageSize;
    }

    /** do_slabs_newslab; memory says whether malloc succeeds. */
    method NewSlab(c: nat, memory: bool) returns (ok: bool)
      requires Sized() && 1 <= c < |pages|
      modifies this
      ensures View() == SlabsSteps.NewSlab(cf, old(View()), c, memory) && Sized()
      ensures ok <==> |pages[c]| == |old(pages)[c]| + 1
      ensures !ok ==> pages == old(pages) && free == old(free) && cells == old(cells)
      ensures SlabsTransfers.Grows(cf, old(View()), View(), c, memory)
    {
      hide SlabsTransfers.Grows, SlabsSteps.NewSlab;
      SlabsTransfers.NewSlabGrows(cf, View(), c, memory);
      ok := Enlarge(c, memory);
    }

    /** The branches of do_slabs_newslab. */
    method Enlarge(c: nat, memory: bool) returns (ok: bool)
      requires Sized() && 1 <= c < |pages|
      modifies this
      ensures View() == SlabsSteps.NewSlab(cf, old(View()), c, memory) && Sized()
      ensures ok <==> |pages[c]| == |old(pages)[c]| + 1
      ensures !ok ==> pages == old(pages) && free == old(free) && cells == old(cells)
    {
      hide FreshCells, FreshList;
      if cf.limit != 0 && malloced + cf.pageSize > cf.limit && pages[c] != [] && pages[0] == [] {
        return false;
      }
      var page := PoolPage();
      if page.None? {
        page := MemoryAllocate(memory, pages[c] == []);
        if page.None? {
          return false;
        }
      }
      ok := true;
      AppendPage(c, page.value);
      assert |pages[c]| == |old(pages)[c]| + 1;
    }

    /** A page is split and put on the class's list. */
    method AppendPage(c: nat, page: Page)
      requires Sized() && 1 <= c < |pages|
      modifies `cells, `free, `pages, `owner
      ensures View() == AddPage(cf, old(View()), c, page) && Sized()
    {
      hide FreshCells, FreshList;
      SplitPage(page, c);
      pages := pages[c := pages[c] + [page]];
      owner := owner[page := c];
    }

    /** do_slabs_alloc: from the free list, which a new page refills when it is empty and newPage allows. */
    method Alloc(c: nat, size: nat, newPage: bool, memory: bool) returns (r: Option<Addr>)
      requires Sized() && 1 <= c < |free|
      modifies this
      ensures Sized()
      ensures var t := if old(free)[c] == [] && newPage then SlabsSteps.NewSlab(cf, old(View()), c, memory)
        else old(View());
        if t.free[c] == [] then r == None && View() == t else r == Some(t.free[c][0]) && View() == Pop(t, c, size)
    {
      hide SlabsTransfers.Grows, SlabsSteps.NewSlab;
      if free[c] == [] && newPage {
        var _ := NewSlab(c, memory);
      }
      if free[c] == [] {
        return None;
      }
      var it := free[c][0];
      free := free[c := free[c][1..]];
      cells := cells[it := Item(RAW, false, false, 1, [], size)];
      requested := requested[c := requested[c] + size];
      return Some(it);
    }

    /** do_slabs_free of one chunk. */
    method FreeChunk(a: Addr)
      requires Known(View(), a)
      modifies `cells, `free, `requested
      ensures View() == Push(old(View()), a)
    {
      var c := owner[a.page];
      requested := requested[c := requested[c] - Req(cells[a])];
      cells := cells[a := Free];
      free := free[c := [a] + free[c]];
    }

    /** do_slabs_free_chunked: the header, then chunk after chunk. */
    method FreeItem(a: Addr)
      requires CanFree(View(), a)
      modifies `cells, `free, `requested
      ensures View() == SlabsSteps.FreeItem(old(View()), a)
    {
      hide PushAll, Push;
      var parts := cells[a].parts;
      PushKnown(View(), a);
      FreeChunk(a);
      ghost var start := View();
      var i := 0;
      PushNone(start);
      assert parts[..0] == [];
      while i < |parts|
        invariant 0 <= i <= |parts|
        invariant forall p :: p in parts ==> Known(start, p) && Known(View(), p)
        invariant View() == PushAll(start, parts[..i])
        invariant unchanged(`pages, `owner, `table, `lru, `malloced, `nextPage, `mover, `failed)
      {
        assert parts[i] in parts && parts[..i + 1] == parts[..i] + [parts[i]];
        PushAllSnoc(start, parts[..i], parts[i]);
        PushKnown(View(), parts[i]);
        FreeChunk(parts[i]);
        i := i + 1;
      }
      assert parts[..i] == parts;
    }

    /** slab_rebalance_alloc */
    method RebalanceAlloc(size: nat) returns (to: Option<Addr>)
      requires Sized() && mover.Moving? && 1 <= mover.src < |free|
      modifies `cells, `free, `requested
      ensures (View(), to) == AllocOutside(old(View()), mover.src, mover.page, size, cf.perslab[mover.src]) && Sized()
    {
      var c, x := mover.src, 0;
      to := None;
      while x < cf.perslab[c]
        invariant 0 <= x <= cf.perslab[c] && Sized() && to == None
        invariant AllocOutside(old(View()), c, mover.page, size, cf.perslab[c]) ==
          AllocOutside(View(), c, mover.page, size, cf.perslab[c] - x)
        invariant unchanged(`pages, `owner, `table, `lru, `malloced, `nextPage, `mover, `failed)
      {
        if free[c] == [] {
          return;
        }
        var it := free[c][0];
        free := free[c := free[c][1..]];
        if it.page == mover.page {
          cells := cells[it := Cleared];
        } else {
          cells := cells[it := Item(RAW, false, false, 1, [], size)];
          requested := requested[c := requested[c] + size];
          return Some(it);
        }
        x := x + 1;
      }
    }

    /** memory_release */
    method MemoryRelease()
      requires 0 < |pages|
      modifies `pages, `owner, `malloced
      ensures View() == Release(cf, old(View()))
    {
      while malloced > cf.limit && pages[0] != [] && malloced >= cf.pageSize
        invariant 0 < |pages| && Release(cf, old(View())) == Release(cf, View())
        invariant unchanged(`free, `requested, `cells, `table, `lru, `nextPage, `mover, `failed)
        decreases |pages[0]|
      {
        var last := |pages[0]| - 1;
        owner := owner - {pages[0][last]};
        pages := pages[0 := pages[0][..last]];
        malloced := malloced - cf.pageSize;
      }
    }

    /** The cursor after one chunk. */
    method AdvanceCursor(wasBusy: bool)
      requires mover.Moving? && mover.src < |cf.perslab|
      modifies `mover
      ensures View() == Advance(cf, old(View()), wasBusy)
    {
      if wasBusy {
        mover := mover.(busy := mover.busy + 1);
      }
      mover := mover.(pos := mover.pos + 1);
      if mover.pos >= cf.perslab[mover.src] {
        if mover.busy > 0 {
          mover := mover.(pos := 0, busy := 0);
        } else {
          mover := mover.(done := true);
        }
      }
    }

    /**
      slab_rebalance_move, while it holds the slabs lock for the first time: clients
      notice nothing, a rescue goes without new memory exactly when the item had
      expired or its class had no free chunk outside the page, and if none begins the
      cursor moves on or the pass ends.
     */
    method RebalanceMove(locked: bool, expired: bool)
      requires Sized() && Inv(cf, View()) && MoverReady(cf, View())
      modifies this
      ensures View() == Examine(cf, old(View()), locked, expired)
      ensures Inv(cf, View()) && SlabsTheorems.View(View()) == SlabsTheorems.View(old(View()))
      ensures mover.Moving? && mover.rescue.Rescue? ==>
        (mover.rescue.to.None? <==> expired || SlabsTheorems.NoMemory(old(View())))
      ensures SlabsProgress.Looked(cf, old(View()), View(), locked, expired)
    {
      SlabsProgress.ExamineVisits(cf, View(), locked, expired);
      SlabsProofs.ExamineKeeps(cf, View(), locked, expired);
      SlabsTheorems.ExamineView(cf, View(), locked, expired);
      SlabsTheorems.GivesUpIff(cf, View(), locked, expired);
      SlabsProofs.CursorFacts(cf, View());
      hide Inv, Examine, SlabsTheorems.View, SlabsTheorems.NoMemory, SlabsProgress.Looked;
      MoveChunk(locked, expired);
    }

    /** The branches of slab_rebalance_move. */
    method MoveChunk(locked: bool, expired: bool)
      requires Sized() && MoverReady(cf, View()) && 1 <= mover.src
      modifies this
      ensures View() == Examine(cf, old(View()), locked, expired)
    {
      hide AllocOutside, Advance;
      var at := Addr(mover.page, mover.pos);
      if cells[at].Cleared? {
        AdvanceCursor(false);
        return;
      }
      if cells[at].Free? {
        var c := owner[at.page];
        cells := cells[at := Cleared];
        free := free[c := Without(free[c], at)];
        AdvanceCursor(false);
        return;
      }
      var it := if cells[at].Part? then cells[at].head else at;
      if !cells[it].linked || locked || cells[it].refs != 1 {
        AdvanceCursor(true);
        return;
      }
      var size := if cells[at].Part? || cells[at].chunked then cf.size[mover.src] else cells[at].req;
      cells := cells[it := cells[it].(refs := cells[it].refs + 1)];
      var to := None;
      if !expired {
        to := RebalanceAlloc(size);
      }
      mover := mover.(rescue := Rescue(it, if it == at then None else Some(at), to));
    }

    /** The page list moves down by one. */
    method ShiftPages(list: seq<Page>) returns (rest: seq<Page>)
      requires list != []
      ensures rest == list[1..]
    {
      var x := 0;
      rest := list;
      while x < |list| - 1
        invariant 0 <= x <= |list| - 1 && |rest| == |list|
        invariant forall i :: 0 <= i < x ==> rest[i] == list[i + 1]
        invariant forall i :: x <= i < |list| ==> rest[i] == list[i]
      {
        rest := rest[x := rest[x + 1]];
        x := x + 1;
      }
      rest := rest[..x];
    }

    /** The victim page leaves its class. */
    method TakeVictim()
      requires mover.Moving? && mover.src < |pages| && pages[mover.src] != []
      modifies `pages, `cells, `owner, `mover
      ensures View() == TakePage(old(View()))
    {
      var m := mover;
      var list := ShiftPages(pages[m.src]);
      pages := pages[m.src := list];
      cells := map a | a in cells && a.page != m.page :: cells[a];
      owner := owner - {m.page};
      mover := Idle;
    }

    /** slab_rebalance_finish */
    method RebalanceFinish()
      requires Sized() && mover.Moving? && mover.src < |pages| && pages[mover.src] != [] && mover.dst < |pages|
      modifies this
      ensures View() == Finish(cf, old(View()))
      ensures old(Inv(cf, View()) && mover.done) ==>
        Inv(cf, View()) && SlabsTransfers.HandsOver(cf, old(View()), View())
    {
      hide Inv, SlabsTransfers.HandsOver, Finish;
      SlabsTransfers.FinishFacts(cf, View());
      HandOver();
    }

    method HandOver()
      requires Sized() && mover.Moving? && mover.src < |pages| && pages[mover.src] != [] && mover.dst < |pages|
      modifies this
      ensures View() == Finish(cf, old(View()))
    {
      hide FreshCells, FreshList, Release;
      var m := mover;
      TakeVictim();
      pages := pages[m.dst := pages[m.dst] + [m.page]];
      owner := owner[m.page := m.dst];
      if m.dst > 0 {
        SplitPage(m.page, m.dst);
      } else {
        MemoryRelease();
      }
    }
  }

  lemma FreshCellsStep(page: Page, n: nat)
    ensures n == 0 ==> FreshCells(page, n) == map[]
    ensures n > 0 ==> FreshCells(page, n) == FreshCells(page, n - 1)[Addr(page, n - 1) := Free]
  {}

  lemma PushKnown(s: State, a: Addr)
    requires Known(s, a)
    ensures forall p :: Known(s, p) ==> Known(Push(s, a), p)
    ensures var t := Push(s, a); t.pages == s.pages && t.owner == s.owner && t.table == s.table && t.lru == s.lru
  {}

  lemma PushNone(s: State)
    ensures PushAll(s, []) == s
  {}

  lemma {:induction false} PushAllSnoc(s: State, parts: seq<Addr>, p: Addr)
    requires Known(s, p) && forall a :: a in parts ==> Known(s, a)
    ensures (forall a :: a in parts + [p] ==> Known(s, a)) && Known(PushAll(s, parts), p)
    ensures PushAll(s, parts + [p]) == Push(PushAll(s, parts), p)
    decreases |parts|
  {
    if parts == [] {
      assert [] + [p] == [p];
      assert PushAll(Push(s, p), [p][1..]) == Push(s, p);
    } else {
      var q, rest := parts[0], parts[1..];
      assert q in parts && (parts + [p])[1..] == rest + [p];
      assert forall a :: a in rest ==> a in parts;
      assert forall a :: Known(s, a) ==> Known(Push(s, q), a);
      PushAllSnoc(Push(s, q), rest, p);
    }
  }
}
