/** The second half of a chunk's move, and the theorems about whole runs. */
module SlabsMoves {
  import opened SlabsTypes
  import opened SlabsSteps
  import opened SlabsInvariant
  import opened SlabsBase
  import opened SlabsPages
  import opened SlabsHeap
  import opened SlabsProofs
  import opened LruSpec

  /** What a rescue in progress looks like in a reachable state. */
  lemma RescueFacts(cf: Config, s: State)
    requires Inv(cf, s) && s.mover.Moving? && s.mover.rescue.Rescue?
    ensures RescueReady(s) && !s.mover.done && s.mover.src < |cf.perslab|
    ensures var r := s.mover.rescue; var at := Addr(s.mover.page, s.mover.pos);
      && IsItem(s, r.it) && s.cells[r.it].linked && s.cells[r.it].refs == 2
      && (r.part.None? ==> r.it == at) && (r.part.Some? ==> r.part.value == at && at in s.cells[r.it].parts)
      && (r.to.Some? ==>
           && CanMove(s, r.it, r.to.value) && Known(s, r.to.value)
           && s.owner[r.to.value.page] == s.mover.src && r.to.value.page != s.mover.page)
      && Known(s, at) && s.owner[s.mover.page] == s.mover.src
  {
    hide PagesOk, CellsOk, FreeOk, CountsOk, MemoryOk, ItemsOk, ChainOk;
    ItemParts(cf, s, s.mover.rescue.it, {});
    CursorFacts(cf, s);
    if s.mover.rescue.to.Some? {
      KnownCell(cf, s, s.mover.rescue.to.value);
    }
  }

  /** The mover lets go of the rescue; what is left is an ordinary state. */
  lemma EndRescue(cf: Config, s: State)
    requires Inv(cf, s) && s.mover.Moving? && s.mover.rescue.Rescue?
    ensures Inv(cf, s.(mover := s.mover.(rescue := NoRescue)))
  {
    hide Base, Heap, RescueReady;
    RescueFacts(cf, s);
    var t := s.(mover := s.mover.(rescue := NoRescue));
    RescueBase(cf, s, NoRescue);
    MoverInUse(s, t.mover);
    SameHeap(s, t, {});
  }

  lemma DropKeeps(cf: Config, s: State, a: Addr)
    requires Inv(cf, s) && IsItem(s, a) && s.cells[a].linked && s.cells[a].refs > 0 && !Reserved(s, a)
    ensures CanFree(s, a) && Inv(cf, DropItem(s, a)) && DropItem(s, a).mover == s.mover
  {
    hide Base, Heap, FreeItem;
    ItemParts(cf, s, a, {});
    DetachBase(cf, s, a);
    DetachHeap(s, a, {});
    assert {} + {a} == {a};
    FreeItemKeeps(cf, Detach(s, a), a);
    FreeItemMover(Detach(s, a), a);
  }

  lemma FreeItemMover(s: State, a: Addr)
    requires CanFree(s, a)
    ensures FreeItem(s, a).mover == s.mover
  {}

  lemma {:induction false} RepointBase(cf: Config, s: State, parts: seq<Addr>, head: Addr)
    requires Base(cf, s)
    ensures Base(cf, s.(cells := Repoint(s.cells, parts, head)))
    decreases |parts|
  {
    hide Base;
    if parts == [] {
      assert s.(cells := s.cells) == s;
    } else {
      var t := s.(cells := Repoint(s.cells, parts[1..], head));
      RepointBase(cf, s, parts[1..], head);
      if parts[0] in t.cells && t.cells[parts[0]].Part? {
        PutSame(cf, t, parts[0], t.cells[parts[0]].(head := head));
        assert SetCell(t, parts[0], t.cells[parts[0]].(head := head)) == s.(cells := Repoint(s.cells, parts, head));
      }
    }
  }

  lemma MoveItemBase(cf: Config, s: State, it: Addr, to: Addr)
    requires Inv(cf, s) && CanMove(s, it, to) && s.mover.Moving? && it.page == s.mover.page
    requires Known(s, it) && Known(s, to) && s.owner[it.page] == s.owner[to.page] == s.mover.src
    ensures s.mover.src < |s.requested| && Base(cf, MoveItem(Uncharge(s, to), it, to))
  {
    hide Base, Repoint;
    var item := s.cells[it];
    assert it !in item.parts by { PartsElsewhere(s, it); }
    hide Heap;
    var s1 := Put(s, to, item.(refs := 1));
    PutBase(cf, s, to, item.(refs := 1));
    var s2 := s1.(cells := Repoint(s1.cells, item.parts, to));
    RepointBase(cf, s1, item.parts, to);
    RepointCells(s1.cells, item.parts, to, it);
    var s3 := Put(s2, it, Cleared);
    PutBase(cf, s2, it, Cleared);
    var t := MoveItem(Uncharge(s, to), it, to);
    assert s3.requested == t.requested && s3.cells == t.cells && s3.free == t.free;
    Relink(cf, s3, t.table, t.lru);
    assert t == s3.(table := t.table, lru := t.lru);
  }

  lemma MovePartBase(cf: Config, s: State, it: Addr, part: Addr, to: Addr)
    requires Base(cf, s) && CanMove(s, it, to) && s.mover.Moving? && part.page == s.mover.page
    requires part in s.cells && s.cells[part].Part? && Known(s, part) && Known(s, to)
    requires s.owner[part.page] == s.owner[to.page] == s.mover.src
    ensures s.mover.src < |s.requested| && Base(cf, MovePart(Uncharge(s, to), it, part, to))
  {
    hide Base;
    var s1 := Put(s, to, s.cells[part]);
    PutBase(cf, s, to, s.cells[part]);
    var s2 := Put(s1, part, Cleared);
    PutBase(cf, s1, part, Cleared);
    var t := MovePart(Uncharge(s, to), it, part, to);
    PutSame(cf, s2, it, t.cells[it]);
    assert SetCell(s2, it, t.cells[it]) == t;
  }

  lemma UnchargeHeap(s: State, to: Addr)
    requires Heap(s, {}) && to in s.cells && s.mover.Moving? && s.mover.src < |s.requested| && s.mover.rescue.NoRescue?
    ensures Heap(Uncharge(s, to), {}) && Uncharge(s, to).cells == s.cells
  {
    hide Heap;
    SameHeap(s, Uncharge(s, to), {});
  }

  lemma CompleteKeeps(cf: Config, s: State)
    requires Inv(cf, s) && RescueReady(s)
    ensures s.mover.src < |cf.perslab| && Inv(cf, Complete(cf, s))
  {
    hide Base, Heap, Advance, DropItem, MoveItem, MovePart;
    var r, t := s.mover.rescue, s.(mover := s.mover.(rescue := NoRescue));
    RescueFacts(cf, s);
    EndRescue(cf, s);
    if r.to.None? {
      DropKeeps(cf, t, r.it);
      AdvanceKeeps(cf, DropItem(t, r.it), true);
    } else if r.part.None? {
      RescueItem(cf, t, r.it, r.to.value);
    } else {
      RescuePart(cf, t, r.it, r.part.value, r.to.value);
    }
  }

  lemma RescueItem(cf: Config, s: State, it: Addr, to: Addr)
    requires Inv(cf, s) && s.mover.Moving? && !s.mover.done && s.mover.rescue.NoRescue? && CanMove(s, it, to)
    requires it == Addr(s.mover.page, s.mover.pos) && Known(s, it) && Known(s, to)
    requires s.owner[it.page] == s.owner[to.page] == s.mover.src
    ensures s.mover.src < |s.requested| && s.mover.src < |cf.perslab|
    ensures Inv(cf, Advance(cf, MoveItem(Uncharge(s, to), it, to), false))
  {
    hide Base, Heap, Advance, MoveItem;
    MoveItemBase(cf, s, it, to);
    UnchargeHeap(s, to);
    var u := Uncharge(s, to);
    MovedHeap(u, it, to);
    MoveItemMover(u, it, to);
    var t := MoveItem(u, it, to);
    assert IsCleared(t, t.mover.page, t.mover.pos);
    AdvanceKeeps(cf, t, false);
  }

  lemma RescuePart(cf: Config, s: State, it: Addr, part: Addr, to: Addr)
    requires Inv(cf, s) && s.mover.Moving? && !s.mover.done && s.mover.rescue.NoRescue? && CanMove(s, it, to)
    requires part == Addr(s.mover.page, s.mover.pos) && part in s.cells[it].parts && part in s.cells
    requires s.cells[part].Part?
    requires Known(s, part) && Known(s, to) && s.owner[part.page] == s.owner[to.page] == s.mover.src
    ensures s.mover.src < |s.requested| && s.mover.src < |cf.perslab|
    ensures Inv(cf, Advance(cf, MovePart(Uncharge(s, to), it, part, to), false))
  {
    hide Base, Heap, Advance;
    MovePartBase(cf, s, it, part, to);
    UnchargeHeap(s, to);
    var u := Uncharge(s, to);
    PartHeap(u, it, part, to);
    var t := MovePart(u, it, part, to);
    assert part != it;
    assert IsCleared(t, t.mover.page, t.mover.pos);
    AdvanceKeeps(cf, t, false);
  }

  // ----- pages -----

  lemma AddPageInUse(cf: Config, s: State, c: nat, page: Page)
    requires Shape(cf, s) && CellsOk(cf, s) && 1 <= c < |s.pages| && page !in s.owner
    ensures SameInUse(s, AddPage(cf, s, c, page))
  {
    FreshFacts(page, cf.perslab[c]);
    hide FreshList, FreshCells;
  }

  lemma GrowKeeps(cf: Config, s: State, c: nat, memory: bool)
    requires Inv(cf, s) && 1 <= c < |s.pages|
    ensures Inv(cf, NewSlab(cf, s, c, memory))
  {
    hide PagesOk, CellsOk, FreeOk, MoverOk, CountsOk, MemoryOk, Heap, NewSlab;
    NewSlabKeeps(cf, s, c, memory);
    NewSlabHeap(cf, s, c, memory);
    SameHeap(s, NewSlab(cf, s, c, memory), {});
  }

  lemma MoverSource(cf: Config, s: State)
    requires Shape(cf, s) && MoverOk(cf, s)
    ensures s.mover.Moving? ==> 1 <= s.mover.src < |s.pages|
  {}

  lemma NewSlabHeap(cf: Config, s: State, c: nat, memory: bool)
    requires Inv(cf, s) && 1 <= c < |s.pages|
    ensures SameInUse(s, NewSlab(cf, s, c, memory)) && RescueOk(NewSlab(cf, s, c, memory))
  {
    hide PagesOk, CellsOk, FreeOk, MoverOk, CountsOk, MemoryOk, ItemsOk, RefsOk, ChainOk, AddPage, RescueOk;
    if OverLimit(cf, s, c) {
    } else if s.pages[0] != [] {
      FromPool(cf, s, c);
      PoolGrowth(cf, s, c);
    } else if memory {
      MallocGrowth(cf, s, c);
    } else {
      RescueSame(s, MallocFails(cf, s, c));
    }
  }

  lemma PoolOwner(s: State)
    requires PagesOk(s) && s.pages != [] && s.pages[0] != []
    ensures var page := s.pages[0][|s.pages[0]| - 1]; page in s.owner && s.owner[page] == 0
  {
    hide Distinct;
    assert s.pages[0][|s.pages[0]| - 1] in s.pages[0];
  }

  lemma PoolGrowth(cf: Config, s: State, c: nat)
    requires Base(cf, s) && RescueOk(s) && 1 <= c < |s.pages| && s.pages[0] != []
    ensures var t := AddPage(cf, DropPool(s), c, s.pages[0][|s.pages[0]| - 1]); SameInUse(s, t) && RescueOk(t)
  {
    hide PagesOk, CellsOk, FreeOk, MoverOk, CountsOk, MemoryOk;
    var page := s.pages[0][|s.pages[0]| - 1];
    PoolOwner(s);
    DropCells(cf, s);
    AddPageInUse(cf, DropPool(s), c, page);
    MoverSource(cf, s);
    var t := AddPage(cf, DropPool(s), c, page);
    assert SameInUse(s, t);
    RescueSame(s, t);
  }

  lemma MallocGrowth(cf: Config, s: State, c: nat)
    requires Base(cf, s) && RescueOk(s) && 1 <= c < |s.pages|
    ensures var t := AddPage(cf, s.(malloced := s.malloced + cf.pageSize, nextPage := s.nextPage + 1), c, s.nextPage);
      SameInUse(s, t) && RescueOk(t)
  {
    hide PagesOk, CellsOk, FreeOk, MoverOk, CountsOk, MemoryOk;
    var s1 := s.(malloced := s.malloced + cf.pageSize, nextPage := s.nextPage + 1);
    GrowLists(cf, s);
    AddPageInUse(cf, s1, c, s.nextPage);
    var t := AddPage(cf, s1, c, s.nextPage);
    assert SameInUse(s, t);
    RescueSame(s, t);
  }

  lemma FinishHeap(cf: Config, s: State)
    requires Inv(cf, s) && s.mover.Moving? && s.mover.done
    ensures s.pages[s.mover.src] != [] && s.mover.dst < |s.pages|
    ensures SameInUse(s, Finish(cf, s)) && Finish(cf, s).mover.Idle?
  {
    hide PagesOk, FreeOk, CountsOk, MemoryOk, Heap;
    var m, t := s.mover, TakePage(s);
    DoneIsCleared(cf, s);
    assert SameInUse(s, t);
    if m.dst == 0 {
      ReleaseCells(cf, PoolPage(t, m.page));
    } else {
      TakeCells(cf, s);
      AddPageInUse(cf, t, m.dst, m.page);
    }
  }

  lemma {:induction false} ReleaseCells(cf: Config, s: State)
    requires 0 < |s.pages|
    ensures var t := Release(cf, s); t.cells == s.cells && t.table == s.table && t.lru == s.lru && t.mover == s.mover
    decreases |s.pages[0]|
  {
    if s.malloced > cf.limit && s.pages[0] != [] && s.malloced >= cf.pageSize {
      ReleaseCells(cf, DropPool(s).(malloced := s.malloced - cf.pageSize));
    }
  }

  lemma FinishMoveKeeps(cf: Config, s: State)
    requires Inv(cf, s) && Enabled(cf, s, FinishMove)
    ensures Inv(cf, Finish(cf, s))
  {
    hide Base, Heap, Finish;
    FinishKeeps(cf, s);
    FinishHeap(cf, s);
    SameHeap(s, Finish(cf, s), {});
  }

  // ----- runs -----

  lemma StepKeeps(cf: Config, s: State, a: Action)
    requires Inv(cf, s) && Enabled(cf, s, a)
    ensures Inv(cf, Apply(cf, s, a))
  {
    hide Base, Heap, NewSlab, Pop, Link, Detach, Hold, Unhold, FreeIfLast, Start, Examine, Complete, Finish;
    match a
    case Grow(c, memory) => GrowKeeps(cf, s, c, memory);
    case Alloc(c, size) => PopKeeps(cf, s, c, size);
    case Fill(_, _, _) => FillKeeps(cf, s, a);
    case Attach(_, _, _) => FillKeeps(cf, s, a);
    case Write(_, _) => FillKeeps(cf, s, a);
    case LinkItem(x) => LinkKeeps(cf, s, x);
    case UnlinkItem(x) => UnlinkKeeps(cf, s, x);
    case Get(key) => HoldKeeps(cf, s, s.table[key]);
    case Remove(x) => UnholdKeeps(cf, s, x);
    case StartMove(src, dst) => StartKeeps(cf, s, src, dst);
    case ExamineChunk(locked, expired) => ExamineKeeps(cf, s, locked, expired);
    case CompleteRescue => CompleteKeeps(cf, s);
    case FinishMove => FinishMoveKeeps(cf, s);
  }

  function Init(cf: Config): State {
    var n := |cf.perslab|;
    State(seq(n, _ => []), seq(n, _ => []), seq(n, _ => 0), map[], map[], map[], {}, 0, 0, Idle, Failures(0, 0))
  }

  lemma InitInv(cf: Config)
    requires cf.Valid()
    ensures Inv(cf, Init(cf))
  {
    var s := Init(cf);
    NoPages(s.pages);
    assert s.malloced == cf.pageSize * (Total(s.pages) + s.failed.all);
  }

  lemma {:induction false} NoPages(pages: seq<seq<Page>>)
    requires forall c :: 0 <= c < |pages| ==> pages[c] == []
    ensures Total(pages) == 0 && NonEmpty(pages) == 0
  {
    if pages != [] {
      NoPages(pages[1..]);
      NoPages(pages[..|pages| - 1]);
    }
  }

  ghost predicate IsRun(cf: Config, states: seq<State>, actions: seq<Action>) {
    && cf.Valid() && |states| == |actions| + 1 && states[0] == Init(cf)
    && forall k {:trigger actions[k]} :: 0 <= k < |actions| ==>
         Enabled(cf, states[k], actions[k]) && states[k + 1] == Apply(cf, states[k], actions[k])
  }

  lemma {:induction false} RunInv(cf: Config, states: seq<State>, actions: seq<Action>, k: nat)
    requires IsRun(cf, states, actions) && k < |states|
    ensures Inv(cf, states[k])
  {
    hide Inv, Apply, Enabled, Init;
    if k == 0 {
      InitInv(cf);
    } else {
      RunInv(cf, states, actions, k - 1);
      assert states[k - 1 + 1] == Apply(cf, states[k - 1], actions[k - 1]);
      StepKeeps(cf, states[k - 1], actions[k - 1]);
    }
  }
}
