/**
  The assertions of slabs.c and items.c on the way of every step, and the pointers
  the mover follows: none of them fails.
 */
module SlabsAsserts {
  import opened SlabsTypes
  import opened SlabsSteps
  import opened SlabsInvariant
  import opened SlabsBase
  import opened SlabsPages
  import opened SlabsHeap
  import opened SlabsProofs
  import opened SlabsMoves
  import opened SlabsTheorems
  import opened LruSpec

  /** do_slabs_alloc, as often as the list is popped: the size fits the class, and what heads the list is free. */
  predicate AllocAsserts(cf: Config, s: State, c: nat, size: nat) {
    && c < |s.free| && c < |cf.size| && size <= cf.size[c]
    && forall a :: a in s.free[c] ==> a in s.cells && s.cells[a].Free?
  }

  /** do_slabs_free and do_slabs_free_chunked: real classes, and only chunks in the chain. */
  predicate FreeAsserts(cf: Config, s: State, a: Addr) {
    && IsItem(s, a) && s.cells[a].refs > 0 && a.page in s.owner && 1 <= s.owner[a.page] < |cf.perslab|
    && forall p :: p in s.cells[a].parts ==>
         p in s.cells && s.cells[p].Part? && p.page in s.owner && 1 <= s.owner[p.page] < |cf.perslab|
  }

  /** slab_rebalance_move up to dropping the slabs lock. */
  predicate ExamineAsserts(cf: Config, s: State, expired: bool) {
    && s.mover.Moving? && s.mover.src < |s.free|
    && var at := Addr(s.mover.page, s.mover.pos);
    && at in s.cells && s.mover.src < |cf.size|
    && (s.cells[at].Free? ==> at in s.free[s.mover.src])
    && (s.cells[at].Part? ==> IsItem(s, s.cells[at].head) && s.cells[s.cells[at].head].chunked)
    && (InUse(s.cells[at]) && !expired ==> AllocAsserts(cf, s, s.mover.src, RescueSize(cf, s, at)))
  }

  /**
    slab_rebalance_move from there on: the copy is not chunked, a chunked item has a
    first chunk, a chunk has its item.
   */
  predicate CompleteAsserts(cf: Config, s: State) {
    && s.mover.Moving? && s.mover.rescue.Rescue?
    && var r := s.mover.rescue;
    && FreeAsserts(cf, s, r.it) && s.cells[r.it].linked
    && (r.to.Some? ==> IsItem(s, r.to.value) && !s.cells[r.to.value].linked)
    && (r.to.Some? && r.part.None? ==>
         !s.cells[r.to.value].chunked && (s.cells[r.it].chunked ==> s.cells[r.it].parts != []))
    && (r.part.Some? ==> r.part.value in s.cells && s.cells[r.part.value].Part? && r.part.value in s.cells[r.it].parts)
  }

  predicate Asserts(cf: Config, s: State, a: Action) {
    match a
    case Grow(_, _) => true
    case Alloc(c, size) => AllocAsserts(cf, s, c, size)
    case Fill(x, _, _) => IsItem(s, x)
    case Attach(head, x, _) => IsItem(s, head) && s.cells[head].chunked && IsItem(s, x)
    case Write(x, _) =>
      && x in s.cells && s.cells[x].Part?
      && IsItem(s, s.cells[x].head) && s.cells[s.cells[x].head].chunked
    case LinkItem(x) => IsItem(s, x) && !s.cells[x].linked
    case UnlinkItem(x) => FreeAsserts(cf, s, x)
    case Get(key) => key in s.table && IsItem(s, s.table[key])
    case Remove(x) => FreeAsserts(cf, s, x)
    case StartMove(_, _) => true
    case ExamineChunk(_, expired) => ExamineAsserts(cf, s, expired)
    case CompleteRescue => CompleteAsserts(cf, s)
    case FinishMove =>
      && s.mover.Moving? && s.mover.src < |cf.perslab|
      && forall i :: 0 <= i < cf.perslab[s.mover.src] ==> IsCleared(s, s.mover.page, i)
  }

  // ----- what was asked for fits the class -----

  ghost predicate SizesOk(cf: Config, s: State) {
    forall a :: a in s.cells && a.page in s.owner && s.owner[a.page] < |cf.size| ==>
      Req(s.cells[a]) <= cf.size[s.owner[a.page]]
  }

  /** t has the pages of s; its chunks ask for what they did in s, for nothing, or are a. */
  ghost predicate Sizes(s: State, t: State, a: Addr) {
    && t.owner == s.owner
    && forall x :: x in t.cells && x != a ==>
         Req(t.cells[x]) == 0 || (x in s.cells && Req(t.cells[x]) == Req(s.cells[x]))
  }

  lemma SizesKeep(cf: Config, s: State, t: State, a: Addr)
    requires SizesOk(cf, s) && Sizes(s, t, a)
    requires a in t.cells && a.page in s.owner && s.owner[a.page] < |cf.size| ==>
      Req(t.cells[a]) <= cf.size[s.owner[a.page]]
    ensures SizesOk(cf, t)
  {}

  lemma {:induction false} PushAllSizes(s: State, parts: seq<Addr>)
    requires forall p :: p in parts ==> Known(s, p)
    ensures PushAll(s, parts).owner == s.owner
    ensures forall x :: x in PushAll(s, parts).cells ==>
      Req(PushAll(s, parts).cells[x]) == 0 || (x in s.cells && PushAll(s, parts).cells[x] == s.cells[x])
    decreases |parts|
  {
    if parts != [] {
      var p, rest := parts[0], parts[1..];
      assert p in parts;
      assert forall a :: a in rest ==> a in parts;
      assert forall a :: Known(s, a) ==> Known(Push(s, p), a);
      PushAllSizes(Push(s, p), rest);
    }
  }

  lemma FreeItemSizes(cf: Config, s: State, a: Addr)
    requires CanFree(s, a) && SizesOk(cf, s)
    ensures SizesOk(cf, FreeItem(s, a))
  {
    assert forall p :: Known(s, p) ==> Known(Push(s, a), p);
    PushAllSizes(Push(s, a), s.cells[a].parts);
    SizesKeep(cf, s, FreeItem(s, a), a);
  }

  lemma {:induction false} AllocOutsideSizes(cf: Config, s: State, size: nat, n: nat)
    requires Base(cf, s) && Heap(s, {}) && s.mover.Moving? && SizesOk(cf, s)
    requires s.mover.src < |s.free| == |s.requested| && s.mover.src < |cf.size| && size <= cf.size[s.mover.src]
    ensures SizesOk(cf, AllocOutside(s, s.mover.src, s.mover.page, size, n).0)
    decreases n
  {
    hide PagesOk, CellsOk, FreeOk, CountsOk, MemoryOk, Heap, Without;
    var c := s.mover.src;
    if n > 0 && s.free[c] != [] {
      var a := s.free[c][0];
      HeadOfFree(cf, s, c);
      if a.page == s.mover.page {
        ClearKeeps(cf, s, a);
        SizesKeep(cf, s, Clear(s, a), a);
        AllocOutsideSizes(cf, Clear(s, a), size, n - 1);
      } else {
        SizesKeep(cf, s, Pop(s, c, size), a);
      }
    }
  }

  lemma RescueFits(cf: Config, s: State)
    requires Inv(cf, s) && SizesOk(cf, s) && MoverReady(cf, s) && InUse(s.cells[Addr(s.mover.page, s.mover.pos)])
    ensures s.mover.src < |cf.size| && RescueSize(cf, s, Addr(s.mover.page, s.mover.pos)) <= cf.size[s.mover.src]
  {
    hide Base, Heap;
    CursorFacts(cf, s);
  }

  lemma AdvanceSizes(cf: Config, s: State, wasBusy: bool)
    requires s.mover.Moving? && s.mover.src < |cf.perslab| && SizesOk(cf, s)
    ensures SizesOk(cf, Advance(cf, s, wasBusy))
  {}

  lemma ExamineSizes(cf: Config, s: State, locked: bool, expired: bool)
    requires Inv(cf, s) && SizesOk(cf, s) && MoverReady(cf, s)
    ensures SizesOk(cf, Examine(cf, s, locked, expired))
  {
    hide Base, Heap, AllocOutside, Advance, RescueSize, SizesOk, Without;
    var at := Addr(s.mover.page, s.mover.pos);
    match s.cells[at]
    case Cleared => AdvanceSizes(cf, s, false);
    case Free =>
      SizesKeep(cf, s, Clear(s, at), at);
      AdvanceSizes(cf, Clear(s, at), false);
    case _ =>
      var it := Target(s, at);
      if !s.cells[it].linked || locked || s.cells[it].refs != 1 {
        AdvanceSizes(cf, s, true);
      } else {
        HoldSizes(cf, s, it);
        HoldKeeps(cf, s, it);
        if !expired {
          RescueFits(cf, s);
          AllocOutsideSizes(cf, Hold(s, it), RescueSize(cf, s, at), cf.perslab[s.mover.src]);
        }
        MoverSizes(cf, Pick(cf, s, expired), PickMemory(cf, s, expired).0);
      }
  }

  lemma HoldSizes(cf: Config, s: State, a: Addr)
    requires IsItem(s, a) && SizesOk(cf, s)
    ensures SizesOk(cf, Hold(s, a))
  {}

  lemma MoverSizes(cf: Config, s: State, t: State)
    requires s.cells == t.cells && s.owner == t.owner && SizesOk(cf, t)
    ensures SizesOk(cf, s)
  {}

  lemma {:induction false} RepointSizes(cells: map<Addr, Cell>, parts: seq<Addr>, head: Addr)
    ensures var cs := Repoint(cells, parts, head);
      cs.Keys == cells.Keys && forall x :: x in cells ==> Req(cs[x]) == Req(cells[x])
    decreases |parts|
  {
    if parts != [] {
      RepointSizes(cells, parts[1..], head);
    }
  }

  lemma MoveItemSizes(cf: Config, s: State, it: Addr, to: Addr)
    requires SizesOk(cf, s) && IsItem(s, it) && to in s.cells && it.page in s.owner && to.page in s.owner
    requires s.owner[to.page] == s.owner[it.page]
    ensures SizesOk(cf, MoveItem(s, it, to))
  {
    RepointSizes(s.cells[to := s.cells[it].(refs := 1)], s.cells[it].parts, to);
    SizesKeep(cf, s, MoveItem(s, it, to), to);
  }

  lemma MovePartSizes(cf: Config, s: State, it: Addr, part: Addr, to: Addr)
    requires SizesOk(cf, s) && IsItem(s, it) && part in s.cells && s.cells[part].Part? && to != it
    requires part.page in s.owner && to.page in s.owner && s.owner[to.page] == s.owner[part.page]
    ensures SizesOk(cf, MovePart(s, it, part, to))
  {
    SizesKeep(cf, s, MovePart(s, it, part, to), to);
  }

  lemma CompleteSizes(cf: Config, s: State)
    requires Inv(cf, s) && SizesOk(cf, s) && RescueReady(s) && s.mover.src < |cf.perslab|
    ensures SizesOk(cf, Complete(cf, s))
  {
    hide Base, Heap, Advance, SizesOk, MoveItem, MovePart, DropItem;
    var r, t := s.mover.rescue, s.(mover := s.mover.(rescue := NoRescue));
    RescueFacts(cf, s);
    MoverSizes(cf, t, s);
    if r.to.None? {
      DropSizes(cf, t, r.it);
      EndRescue(cf, s);
      DropKeeps(cf, t, r.it);
      AdvanceSizes(cf, DropItem(t, r.it), true);
    } else {
      var u := Uncharge(t, r.to.value);
      MoverSizes(cf, u, t);
      if r.part.None? {
        MoveItemSizes(cf, u, r.it, r.to.value);
        MoveItemMover(u, r.it, r.to.value);
        AdvanceSizes(cf, MoveItem(u, r.it, r.to.value), false);
      } else {
        MovePartSizes(cf, u, r.it, r.part.value, r.to.value);
        MovePartMover(u, r.it, r.part.value, r.to.value);
        AdvanceSizes(cf, MovePart(u, r.it, r.part.value, r.to.value), false);
      }
    }
  }

  lemma MovePartMover(s: State, it: Addr, part: Addr, to: Addr)
    requires IsItem(s, it) && part in s.cells && s.cells[part].Part?
    ensures MovePart(s, it, part, to).mover == s.mover
  {}

  lemma DropSizes(cf: Config, s: State, a: Addr)
    requires CanFree(s, a) && s.cells[a].refs > 0 && SizesOk(cf, s)
    ensures SizesOk(cf, DropItem(s, a))
  {
    var t := Detach(s, a);
    assert forall p :: Known(s, p) ==> Known(t, p);
    SizesKeep(cf, s, t, a);
    FreeItemSizes(cf, t, a);
  }

  lemma LastSizes(cf: Config, s: State, a: Addr)
    requires IsItem(s, a) && SizesOk(cf, s)
    ensures SizesOk(cf, FreeIfLast(s, a))
  {
    hide SizesOk, FreeItem;
    if s.cells[a].refs == 0 && CanFree(s, a) {
      FreeItemSizes(cf, s, a);
    }
  }

  lemma {:induction false} FreshAreFree(page: Page, n: nat)
    ensures forall a :: a in FreshCells(page, n) ==> FreshCells(page, n)[a].Free? && a.page == page
  {
    forall a | a in FreshList(page, n)
      ensures a.page == page
    {
      FreshPage(page, n, a);
    }
  }

  lemma {:induction false} FreshPage(page: Page, n: nat, a: Addr)
    requires a in FreshList(page, n)
    ensures a.page == page
  {
    if n > 0 && a != Addr(page, n - 1) {
      FreshPage(page, n - 1, a);
    }
  }

  lemma AddPageSizes(cf: Config, s: State, c: nat, page: Page)
    requires SizesOk(cf, s) && 1 <= c < |s.pages| == |s.free| == |cf.perslab| && forall a :: a in s.cells ==>
      a.page != page
    ensures SizesOk(cf, AddPage(cf, s, c, page))
  {
    hide FreshCells, FreshList;
    FreshAreFree(page, cf.perslab[c]);
  }

  /** Pages of the pool and new pages have no chunks. */
  lemma NoChunks(cf: Config, s: State, page: Page)
    requires Base(cf, s) && (page in s.pages[0] || page >= s.nextPage)
    ensures forall a :: a in s.cells ==> a.page != page
  {
    forall a | a in s.cells
      ensures a.page != page
    {
      assert 1 <= s.owner[a.page];
    }
  }

  lemma GrowSizes(cf: Config, s: State, c: nat, memory: bool)
    requires Base(cf, s) && SizesOk(cf, s) && 1 <= c < |s.pages|
    ensures SizesOk(cf, NewSlab(cf, s, c, memory))
  {
    hide PagesOk, CellsOk, FreeOk, MoverOk, CountsOk, MemoryOk, AddPage, SizesOk;
    if OverLimit(cf, s, c) {
    } else if s.pages[0] != [] {
      var page := s.pages[0][|s.pages[0]| - 1];
      assert page in s.pages[0];
      var t := s.(pages := s.pages[0 := s.pages[0][..|s.pages[0]| - 1]]);
      NoChunks(cf, s, page);
      MoverSizes(cf, t, s);
      AddPageSizes(cf, t, c, page);
    } else if memory {
      var t := s.(malloced := s.malloced + cf.pageSize, nextPage := s.nextPage + 1);
      NoChunks(cf, s, s.nextPage);
      MoverSizes(cf, t, s);
      AddPageSizes(cf, t, c, s.nextPage);
    } else {
      MoverSizes(cf, MallocFails(cf, s, c), s);
    }
  }

  lemma {:induction false} ReleaseSizes(cf: Config, s: State)
    requires 0 < |s.pages| && SizesOk(cf, s)
    ensures SizesOk(cf, Release(cf, s))
    decreases |s.pages[0]|
  {
    if s.malloced > cf.limit && s.pages[0] != [] && s.malloced >= cf.pageSize {
      var last := |s.pages[0]| - 1;
      ReleaseSizes(cf, s.(pages := s.pages[0 := s.pages[0][..last]], owner := s.owner - {s.pages[0][last]},
        malloced := s.malloced - cf.pageSize));
    }
  }

  lemma FinishSizes(cf: Config, s: State)
    requires Inv(cf, s) && SizesOk(cf, s) && Enabled(cf, s, FinishMove)
    ensures SizesOk(cf, Finish(cf, s))
  {
    hide Base, Heap, AddPage, Release;
    var m, t := s.mover, TakePage(s);
    assert SizesOk(cf, t);
    if m.dst == 0 {
      var u := t.(pages := t.pages[0 := t.pages[0] + [m.page]], owner := t.owner[m.page := 0]);
      assert SizesOk(cf, u);
      ReleaseSizes(cf, u);
    } else {
      AddPageSizes(cf, t, m.dst, m.page);
    }
  }

  lemma StepSizes(cf: Config, s: State, a: Action)
    requires Inv(cf, s) && SizesOk(cf, s) && Enabled(cf, s, a)
    ensures SizesOk(cf, Apply(cf, s, a))
  {
    hide Base, Heap, SizesOk, NewSlab, FreeIfLast, Examine, Complete, Finish, FreeItem;
    match a
    case Grow(c, memory) => GrowSizes(cf, s, c, memory);
    case Alloc(c, size) =>
      HeadOfFree(cf, s, c);
      SizesKeep(cf, s, Pop(s, c, size), s.free[c][0]);
    case Fill(x, _, _) => SizesSame(cf, s, Apply(cf, s, a), x, x);
    case Attach(head, x, _) => SizesSame(cf, s, Apply(cf, s, a), head, x);
    case Write(x, _) => SizesSame(cf, s, Apply(cf, s, a), x, x);
    case LinkItem(x) => SizesSame(cf, s, Apply(cf, s, a), x, x);
    case UnlinkItem(x) =>
      SizesSame(cf, s, Detach(s, x), x, x);
      LastSizes(cf, Detach(s, x), x);
    case Get(key) => HoldSizes(cf, s, s.table[key]);
    case Remove(x) =>
      var t := SetCell(s, x, s.cells[x].(refs := s.cells[x].refs - 1));
      SizesSame(cf, s, t, x, x);
      LastSizes(cf, t, x);
    case StartMove(src, dst) => MoverSizes(cf, Start(s, src, dst), s);
    case ExamineChunk(locked, expired) => ExamineSizes(cf, s, locked, expired);
    case CompleteRescue =>
      RescueFacts(cf, s);
      CompleteSizes(cf, s);
    case FinishMove => FinishSizes(cf, s);
  }

  lemma SizesSame(cf: Config, s: State, t: State, a: Addr, b: Addr)
    requires SizesOk(cf, s) && t.owner == s.owner && a in s.cells && b in s.cells && a in t.cells && b in t.cells
    requires t.cells == s.cells[b := t.cells[b]][a := t.cells[a]] && Req(t.cells[a]) == Req(s.cells[a])
    requires Req(t.cells[b]) == Req(s.cells[b])
    ensures SizesOk(cf, t)
  {}

  lemma {:induction false} RunSizes(cf: Config, states: seq<State>, actions: seq<Action>, k: nat)
    requires IsRun(cf, states, actions) && k < |states|
    ensures SizesOk(cf, states[k])
  {
    hide Inv, Apply, Enabled, SizesOk;
    if k == 0 {
      InitSizes(cf);
    } else {
      RunSizes(cf, states, actions, k - 1);
      RunStep(cf, states, actions, k - 1);
      StepSizes(cf, states[k - 1], actions[k - 1]);
    }
  }

  lemma InitSizes(cf: Config)
    ensures SizesOk(cf, Init(cf))
  {}

  // ----- no assertion fails -----

  lemma FreeNeverAsserts(cf: Config, s: State, a: Addr)
    requires Inv(cf, s) && IsItem(s, a)
    ensures FreeAsserts(cf, s, a)
  {
    hide PagesOk, FreeOk, MoverOk, CountsOk, MemoryOk, Heap;
    ItemFacts(s, a);
    ItemParts(cf, s, a, {});
  }

  lemma AllocNeverAsserts(cf: Config, s: State, c: nat, size: nat)
    requires Inv(cf, s) && c < |s.free| && size <= cf.size[c]
    ensures AllocAsserts(cf, s, c, size)
  {
    hide PagesOk, CellsOk, MoverOk, CountsOk, MemoryOk, Heap, Distinct;
  }

  lemma ExamineNeverAsserts(cf: Config, s: State, expired: bool)
    requires Inv(cf, s) && SizesOk(cf, s) && MoverReady(cf, s)
    ensures ExamineAsserts(cf, s, expired)
  {
    hide Base, Heap, AllocAsserts, SizesOk;
    var at := Addr(s.mover.page, s.mover.pos);
    CursorFacts(cf, s);
    CursorFree(cf, s);
    if InUse(s.cells[at]) {
      RescueFits(cf, s);
      AllocNeverAsserts(cf, s, s.mover.src, RescueSize(cf, s, at));
    }
    if s.cells[at].Part? {
      PartHead(cf, s, at);
    }
  }

  lemma CursorFree(cf: Config, s: State)
    requires Inv(cf, s) && MoverReady(cf, s)
    ensures var at := Addr(s.mover.page, s.mover.pos); s.cells[at].Free? ==> at in s.free[s.owner[at.page]]
  {
    hide PagesOk, CellsOk, MoverOk, CountsOk, MemoryOk, Heap, Distinct;
  }

  lemma PartHead(cf: Config, s: State, p: Addr)
    requires Inv(cf, s) && p in s.cells && s.cells[p].Part?
    ensures IsItem(s, s.cells[p].head) && s.cells[s.cells[p].head].chunked && p in s.cells[s.cells[p].head].parts
  {
    hide Base, ItemsOk, RefsOk, RescueOk, Distinct;
  }

  lemma CompleteNeverAsserts(cf: Config, s: State)
    requires Inv(cf, s) && s.mover.Moving? && s.mover.rescue.Rescue?
    ensures CompleteAsserts(cf, s)
  {
    hide Base, FreeAsserts;
    RescueFacts(cf, s);
    FreeNeverAsserts(cf, s, s.mover.rescue.it);
    RescueWhole(s);
  }

  lemma RescueWhole(s: State)
    requires Heap(s, {}) && s.mover.Moving? && s.mover.rescue.Rescue?
    ensures IsItem(s, s.mover.rescue.it) && WholeOk(s.cells[s.mover.rescue.it])
    ensures s.mover.rescue.to.Some? ==> IsItem(s, s.mover.rescue.to.value) && !s.cells[s.mover.rescue.to.value].chunked
  {
    hide ItemsOk, RefsOk, PartsOk, HeadsOk, Distinct;
  }

  lemma NeverAsserts(cf: Config, s: State, a: Action)
    requires Inv(cf, s) && SizesOk(cf, s) && Enabled(cf, s, a)
    ensures Asserts(cf, s, a)
  {
    hide Inv, SizesOk, AllocAsserts, FreeAsserts, ExamineAsserts, CompleteAsserts;
    match a
    case Grow(_, _) =>
    case Alloc(c, size) => AllocNeverAsserts(cf, s, c, size);
    case Fill(_, _, _) =>
    case Attach(_, _, _) =>
    case Write(x, _) => PartHead(cf, s, x);
    case LinkItem(_) =>
    case UnlinkItem(x) => FreeNeverAsserts(cf, s, x);
    case Get(_) =>
    case Remove(x) => FreeNeverAsserts(cf, s, x);
    case StartMove(_, _) =>
    case ExamineChunk(_, expired) => ExamineNeverAsserts(cf, s, expired);
    case CompleteRescue => CompleteNeverAsserts(cf, s);
    case FinishMove => FinishNeverAsserts(cf, s);
  }

  lemma FinishNeverAsserts(cf: Config, s: State)
    requires Inv(cf, s) && s.mover.Moving? && s.mover.done
    ensures s.mover.src < |cf.perslab| && forall i :: 0 <= i < cf.perslab[s.mover.src] ==> IsCleared(s, s.mover.page, i)
  {
    hide PagesOk, CellsOk, FreeOk, CountsOk, MemoryOk, Heap;
  }

  /**
    In every run, no assertion fails on the way of any step that is possible, and no
    pointer the mover follows is bad.
   */
  lemma RunNeverAsserts(cf: Config, states: seq<State>, actions: seq<Action>, k: nat, a: Action)
    requires IsRun(cf, states, actions) && k < |states| && Enabled(cf, states[k], a)
    ensures Asserts(cf, states[k], a)
  {
    hide IsRun, Inv, SizesOk, Enabled, Asserts;
    RunInv(cf, states, actions, k);
    RunSizes(cf, states, actions, k);
    NeverAsserts(cf, states[k], a);
  }
}
