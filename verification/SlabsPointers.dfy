/**
  The free lists of a run in memory: what the pointer writes of every step do to
  prev, next, slots and sl_curr, while the owners of chunks in use write to
  their own pointers as they please.
 */
module SlabsPointers {
  import opened SlabsTypes
  import opened SlabsSteps
  import opened SlabsInvariant
  import opened SlabsBase
  import opened SlabsProofs
  import opened SlabsMoves
  import opened SlabsFreeLists
  import opened LruSpec
  import opened Links

  // ----- chunks and their addresses -----

  /** Chunks lie at different addresses, none of them null. */
  ghost predicate Layout(at: Addr -> Ref) {
    (forall a :: at(a) != 0) && forall a, b :: at(a) == at(b) ==> a == b
  }

  function Refs(at: Addr -> Ref, xs: seq<Addr>): (rs: seq<Ref>)
    ensures |rs| == |xs| && forall i :: 0 <= i < |xs| ==> rs[i] == at(xs[i])
  {
    seq(|xs|, i requires 0 <= i < |xs| => at(xs[i]))
  }

  function Orders(at: Addr -> Ref, free: seq<seq<Addr>>): (os: seq<seq<Ref>>)
    ensures |os| == |free| && forall c :: 0 <= c < |free| ==> os[c] == Refs(at, free[c])
  {
    seq(|free|, c requires 0 <= c < |free| => Refs(at, free[c]))
  }

  lemma RefsMember(at: Addr -> Ref, xs: seq<Addr>, a: Addr)
    requires Layout(at)
    ensures at(a) in Refs(at, xs) <==> a in xs
  {
    if a in xs {
      var i :| 0 <= i < |xs| && xs[i] == a;
      assert Refs(at, xs)[i] == at(a);
    }
  }

  lemma {:induction false} RefsWithout(at: Addr -> Ref, xs: seq<Addr>, a: Addr)
    requires Layout(at)
    ensures Refs(at, Without(xs, a)) == Without(Refs(at, xs), at(a))
  {
    if xs != [] {
      RefsWithout(at, xs[1..], a);
      assert Refs(at, xs)[1..] == Refs(at, xs[1..]);
      if xs[0] != a {
        assert Refs(at, [xs[0]] + Without(xs[1..], a)) == [at(xs[0])] + Refs(at, Without(xs[1..], a));
      }
    }
  }

  /** Memory holds the free lists of the state. */
  ghost predicate Wired(at: Addr -> Ref, s: State, m: Memory) {
    Lists(m, Orders(at, s.free))
  }

  /** A chunk on a free list is free, and on the list of its own class. */
  ghost predicate Listed(s: State) {
    && |s.free| == |s.requested|
    && forall c, a :: 0 <= c < |s.free| && a in s.free[c] ==>
         a in s.cells && s.cells[a].Free? && a.page in s.owner && s.owner[a.page] == c
  }

  // ----- the three pointer operations on chunks -----

  function Freed(at: Addr -> Ref, m: Memory, c: nat, a: Addr): Memory {
    if c < |m.slots| == |m.slCurr| then PushSlot(m, c, at(a)) else m
  }

  function Taken(m: Memory, c: nat): Memory {
    if c < |m.slots| == |m.slCurr| && m.slCurr[c] > 0 && m.slots[c] in m.next then PopSlot(m, c) else m
  }

  function CutOut(at: Addr -> Ref, m: Memory, c: nat, a: Addr): Memory {
    if c < |m.slots| == |m.slCurr| && m.slCurr[c] > 0 && at(a) in m.prev && at(a) in m.next
    then CutSlot(m, c, at(a))
    else m
  }

  lemma FreedWired(at: Addr -> Ref, m: Memory, free: seq<seq<Addr>>, c: nat, a: Addr)
    requires Layout(at) && Lists(m, Orders(at, free)) && c < |free| && forall d :: 0 <= d < |free| ==> a !in free[d]
    ensures Lists(Freed(at, m, c, a), Orders(at, free[c := [a] + free[c]]))
  {
    hide Lists, PushSlot;
    var o := Orders(at, free);
    forall d | 0 <= d < |o|
      ensures at(a) !in o[d]
    {
      RefsMember(at, free[d], a);
    }
    ListsSize(m, o);
    PushSlotOk(m, o, c, at(a));
    assert Refs(at, [a] + free[c]) == [at(a)] + Refs(at, free[c]);
    assert Orders(at, free[c := [a] + free[c]]) == o[c := [at(a)] + o[c]];
  }

  lemma ListsSize(m: Memory, order: seq<seq<Ref>>)
    requires Lists(m, order)
    ensures |m.slots| == |m.slCurr| == |order|
  {}

  lemma TakenWired(at: Addr -> Ref, m: Memory, free: seq<seq<Addr>>, c: nat)
    requires Lists(m, Orders(at, free)) && c < |free| && free[c] != []
    ensures Lists(Taken(m, c), Orders(at, free[c := free[c][1..]])) && m.slots[c] == at(free[c][0])
  {
    hide Lists, PopSlot;
    var o := Orders(at, free);
    ListsSize(m, o);
    PopSlotOk(m, o, c);
    assert Refs(at, free[c][1..]) == o[c][1..];
    assert Orders(at, free[c := free[c][1..]]) == o[c := o[c][1..]];
  }

  lemma CutOutWired(at: Addr -> Ref, m: Memory, free: seq<seq<Addr>>, c: nat, a: Addr)
    requires Layout(at) && Lists(m, Orders(at, free)) && c < |free| && a in free[c]
    ensures Lists(CutOut(at, m, c, a), Orders(at, free[c := Without(free[c], a)]))
  {
    hide Lists, CutSlot;
    var o := Orders(at, free);
    ListsSize(m, o);
    var k :| 0 <= k < |free[c]| && free[c][k] == a;
    CutSlotOk(m, o, c, k);
    RefsWithout(at, free[c], a);
    assert Orders(at, free[c := Without(free[c], a)]) == o[c := Without(o[c], at(a))];
  }

  // ----- loops over chunks -----

  /** Freeing the chunks of an item one after the other. */
  function FreedAll(at: Addr -> Ref, s: State, m: Memory, parts: seq<Addr>): Memory
    decreases |parts|
  {
    if parts == [] || parts[0].page !in s.owner then m
    else FreedAll(at, s, Freed(at, m, s.owner[parts[0].page], parts[0]), parts[1..])
  }

  lemma PushWired(at: Addr -> Ref, s: State, m: Memory, a: Addr)
    requires Layout(at) && Wired(at, s, m) && Listed(s) && Known(s, a) && !s.cells[a].Free?
    ensures Wired(at, Push(s, a), Freed(at, m, s.owner[a.page], a)) && Listed(Push(s, a))
  {
    hide Lists;
    FreedWired(at, m, s.free, s.owner[a.page], a);
  }

  lemma {:induction false} PushAllWired(at: Addr -> Ref, s: State, m: Memory, parts: seq<Addr>)
    requires Layout(at) && Wired(at, s, m) && Listed(s) && Distinct(parts)
    requires forall p :: p in parts ==> Known(s, p) && !s.cells[p].Free?
    ensures Wired(at, PushAll(s, parts), FreedAll(at, s, m, parts)) && Listed(PushAll(s, parts))
    decreases |parts|
  {
    hide Wired, Listed;
    if parts != [] {
      var p, rest := parts[0], parts[1..];
      assert p in parts && parts == [p] + rest;
      PushWired(at, s, m, p);
      assert forall a :: Known(s, a) ==> Known(Push(s, p), a);
      assert forall a :: a in rest ==> a in parts && a != p;
      DistinctTail(parts);
      PushAllWired(at, Push(s, p), Freed(at, m, s.owner[p.page], p), rest);
      SameOwner(at, s, Push(s, p), Freed(at, m, s.owner[p.page], p), rest);
    }
  }

  lemma {:induction false} SameOwner(at: Addr -> Ref, s: State, t: State, m: Memory, parts: seq<Addr>)
    requires s.owner == t.owner
    ensures FreedAll(at, s, m, parts) == FreedAll(at, t, m, parts)
    decreases |parts|
  {
    if parts != [] && parts[0].page in s.owner {
      SameOwner(at, s, t, Freed(at, m, s.owner[parts[0].page], parts[0]), parts[1..]);
    }
  }

  /** item_free of the item at a. */
  function FreedItem(at: Addr -> Ref, s: State, m: Memory, a: Addr): Memory
    requires IsItem(s, a)
  {
    FreedAll(at, s, m, [a] + s.cells[a].parts)
  }

  lemma FreeItemWired(at: Addr -> Ref, s: State, m: Memory, a: Addr)
    requires Layout(at) && Wired(at, s, m) && Listed(s) && CanFree(s, a) && Distinct(s.cells[a].parts)
    requires a !in s.cells[a].parts
    requires forall p :: p in s.cells[a].parts ==> s.cells[p].Part?
    ensures Wired(at, FreeItem(s, a), FreedItem(at, s, m, a))
  {
    hide Wired, Listed;
    var all := [a] + s.cells[a].parts;
    assert all[1..] == s.cells[a].parts && PushAll(s, all) == FreeItem(s, a);
    PushAllWired(at, s, m, all);
  }

  /** split_slab_page_into_freelist */
  function Split(at: Addr -> Ref, m: Memory, c: nat, page: Page, n: nat): Memory {
    if n == 0 then m else Freed(at, Split(at, m, c, page, n - 1), c, Addr(page, n - 1))
  }

  lemma {:induction false} FreshMembers(page: Page, n: nat, a: Addr)
    ensures a in FreshList(page, n) <==> a.page == page && a.idx < n
  {
    if n > 0 {
      FreshMembers(page, n - 1, a);
    }
  }

  lemma FreshCons(free: seq<seq<Addr>>, c: nat, page: Page, n: nat)
    requires c < |free| && n > 0
    ensures var f := free[c := FreshList(page, n - 1) + free[c]];
      f[c := [Addr(page, n - 1)] + f[c]] == free[c := FreshList(page, n) + free[c]]
  {
    assert [Addr(page, n - 1)] + (FreshList(page, n - 1) + free[c]) == FreshList(page, n) + free[c];
  }

  lemma {:induction false} SplitWired(at: Addr -> Ref, m: Memory, free: seq<seq<Addr>>, c: nat, page: Page, n: nat)
    requires Layout(at) && Lists(m, Orders(at, free)) && c < |free|
    requires forall d, a :: 0 <= d < |free| && a in free[d] ==> a.page != page
    ensures Lists(Split(at, m, c, page, n), Orders(at, free[c := FreshList(page, n) + free[c]]))
    decreases n
  {
    hide Lists;
    if n == 0 {
      assert FreshList(page, 0) + free[c] == free[c] && free[c := free[c]] == free;
    } else {
      SplitWired(at, m, free, c, page, n - 1);
      var f, a := free[c := FreshList(page, n - 1) + free[c]], Addr(page, n - 1);
      forall d | 0 <= d < |f|
        ensures a !in f[d]
      {
        FreshMembers(page, n - 1, a);
      }
      FreedWired(at, Split(at, m, c, page, n - 1), f, c, a);
      FreshCons(free, c, page, n);
    }
  }

  lemma AddPageWired(at: Addr -> Ref, cf: Config, s: State, m: Memory, c: nat, page: Page)
    requires Layout(at) && Wired(at, s, m) && 1 <= c < |s.pages| == |s.free| == |cf.perslab|
    requires forall d, a :: 0 <= d < |s.free| && a in s.free[d] ==> a.page != page
    ensures Wired(at, AddPage(cf, s, c, page), Split(at, m, c, page, cf.perslab[c]))
  {
    hide Lists, FreshCells;
    SplitWired(at, m, s.free, c, page, cf.perslab[c]);
  }

  /** slab_rebalance_alloc: takes chunks until one lies outside the page. */
  function Searched(s: State, m: Memory, c: nat, page: Page, size: nat, n: nat): Memory
    requires c < |s.free| == |s.requested|
    decreases n
  {
    if n == 0 || s.free[c] == [] then m
    else
      var a := s.free[c][0];
      if a.page == page then
        Searched(s.(cells := s.cells[a := Cleared], free := s.free[c := s.free[c][1..]]), Taken(m, c), c, page, size,
          n - 1)
      else Taken(m, c)
  }

  lemma {:induction false} SearchedWired(at: Addr -> Ref, s: State, m: Memory, c: nat, page: Page, size: nat, n: nat)
    requires Wired(at, s, m) && c < |s.free| == |s.requested|
    ensures Wired(at, AllocOutside(s, c, page, size, n).0, Searched(s, m, c, page, size, n))
    decreases n
  {
    hide Lists;
    if n > 0 && s.free[c] != [] {
      var a := s.free[c][0];
      TakenWired(at, m, s.free, c);
      if a.page == page {
        SearchedWired(at, s.(cells := s.cells[a := Cleared], free := s.free[c := s.free[c][1..]]), Taken(m, c), c,
          page, size, n - 1);
      }
    }
  }

  // ----- the pointer writes of one step -----

  function Dropped(at: Addr -> Ref, s: State, m: Memory, a: Addr): Memory
    requires IsItem(s, a)
  {
    if s.cells[a].refs == 0 && CanFree(s, a) then FreedItem(at, s, m, a) else m
  }

  function Grown(cf: Config, at: Addr -> Ref, s: State, m: Memory, c: nat, memory: bool): Memory
    requires 1 <= c < |s.pages| == |s.free| == |cf.perslab|
  {
    if OverLimit(cf, s, c) then m
    else if s.pages[0] != [] then Split(at, m, c, s.pages[0][|s.pages[0]| - 1], cf.perslab[c])
    else if memory then Split(at, m, c, s.nextPage, cf.perslab[c])
    else m
  }

  function Examined(cf: Config, at: Addr -> Ref, s: State, m: Memory, locked: bool, expired: bool): Memory
    requires MoverReady(cf, s)
  {
    var cursor := Addr(s.mover.page, s.mover.pos);
    match s.cells[cursor]
    case Cleared => m
    case Free => CutOut(at, m, s.owner[cursor.page], cursor)
    case _ =>
      var it := Target(s, cursor);
      if !s.cells[it].linked || locked || s.cells[it].refs != 1 || expired then m
      else Searched(Hold(s, it), m, s.mover.src, s.mover.page, RescueSize(cf, s, cursor), cf.perslab[s.mover.src])
  }

  function Wires(cf: Config, at: Addr -> Ref, s: State, a: Action, m: Memory): Memory
    requires Enabled(cf, s, a)
  {
    match a
    case Grow(c, memory) => Grown(cf, at, s, m, c, memory)
    case Alloc(c, _) => Taken(m, c)
    case UnlinkItem(x) => Dropped(at, Detach(s, x), m, x)
    case Remove(x) => Dropped(at, SetCell(s, x, s.cells[x].(refs := s.cells[x].refs - 1)), m, x)
    case ExamineChunk(locked, expired) => Examined(cf, at, s, m, locked, expired)
    case CompleteRescue =>
      if s.mover.rescue.to.None? then FreedItem(at, Detach(s, s.mover.rescue.it), m, s.mover.rescue.it) else m
    case FinishMove => if s.mover.dst == 0 then m else Split(at, m, s.mover.dst, s.mover.page, cf.perslab[s.mover.dst])
    case _ => m
  }

  lemma SameFree(at: Addr -> Ref, s: State, t: State, m: Memory)
    requires Wired(at, s, m) && t.free == s.free
    ensures Wired(at, t, m)
  {}

  lemma InvListed(cf: Config, s: State)
    requires Base(cf, s)
    ensures Listed(s)
  {}

  lemma DroppedWired(at: Addr -> Ref, s: State, m: Memory, a: Addr)
    requires Layout(at) && Wired(at, s, m) && Listed(s) && IsItem(s, a) && Distinct(s.cells[a].parts)
    requires a !in s.cells[a].parts
    requires forall p :: p in s.cells[a].parts ==> p in s.cells && s.cells[p].Part?
    ensures Wired(at, FreeIfLast(s, a), Dropped(at, s, m, a))
  {
    hide Wired, Listed, FreeItem, FreedItem;
    if s.cells[a].refs == 0 && CanFree(s, a) {
      FreeItemWired(at, s, m, a);
    }
  }

  /** An item of the state with other marks is freed like the item itself. */
  lemma ReviseListed(cf: Config, s: State, t: State, a: Addr)
    requires Inv(cf, s) && IsItem(s, a) && IsItem(t, a) && t.cells == s.cells[a := t.cells[a]]
    requires t.cells[a].parts == s.cells[a].parts
    requires t.free == s.free && t.owner == s.owner && t.requested == s.requested
    ensures Listed(t) && Distinct(t.cells[a].parts) && a !in t.cells[a].parts
    ensures forall p :: p in t.cells[a].parts ==> p in t.cells && t.cells[p].Part?
  {
    hide Base, Heap, Distinct;
    InvListed(cf, s);
    ItemParts(cf, s, a, {});
  }

  lemma LastReference(cf: Config, at: Addr -> Ref, s: State, t: State, a: Addr, m: Memory)
    requires Layout(at) && Wired(at, s, m) && Inv(cf, s) && IsItem(s, a) && IsItem(t, a)
    requires t.cells == s.cells[a := t.cells[a]] && t.cells[a].parts == s.cells[a].parts
    requires t.free == s.free && t.owner == s.owner && t.requested == s.requested
    ensures Wired(at, FreeIfLast(t, a), Dropped(at, t, m, a))
  {
    hide Inv, Wired, Distinct, Listed, FreeIfLast, Dropped;
    SameFree(at, s, t, m);
    ReviseListed(cf, s, t, a);
    DroppedWired(at, t, m, a);
  }

  /** Pages of the pool and new pages have no chunk on a free list. */
  lemma FreshPages(cf: Config, s: State, page: Page)
    requires Base(cf, s) && (page in s.pages[0] || page >= s.nextPage)
    ensures forall d, a :: 0 <= d < |s.free| && a in s.free[d] ==> a.page != page
  {
    forall d, a | 0 <= d < |s.free| && a in s.free[d]
      ensures a.page != page
    {
      assert a in s.cells && s.owner[a.page] == d;
    }
  }

  lemma GrowWired(cf: Config, at: Addr -> Ref, s: State, c: nat, memory: bool, m: Memory)
    requires Layout(at) && Wired(at, s, m) && Base(cf, s) && 1 <= c < |s.pages|
    ensures Wired(at, NewSlab(cf, s, c, memory), Grown(cf, at, s, m, c, memory))
  {
    hide PagesOk, CellsOk, FreeOk, MoverOk, CountsOk, MemoryOk, Wired, AddPage, Split;
    if OverLimit(cf, s, c) {
    } else if s.pages[0] != [] {
      var last := |s.pages[0]| - 1;
      var t := s.(pages := s.pages[0 := s.pages[0][..last]]);
      assert s.pages[0][last] in s.pages[0];
      FreshPages(cf, s, s.pages[0][last]);
      SameFree(at, s, t, m);
      AddPageWired(at, cf, t, m, c, s.pages[0][last]);
    } else if memory {
      var t := s.(malloced := s.malloced + cf.pageSize, nextPage := s.nextPage + 1);
      FreshPages(cf, s, s.nextPage);
      SameFree(at, s, t, m);
      AddPageWired(at, cf, t, m, c, s.nextPage);
    } else {
      SameFree(at, s, MallocFails(cf, s, c), m);
    }
  }

  lemma ExamineWired(cf: Config, at: Addr -> Ref, s: State, m: Memory, locked: bool, expired: bool)
    requires Layout(at) && Wired(at, s, m) && Inv(cf, s) && MoverReady(cf, s)
    ensures Wired(at, Examine(cf, s, locked, expired), Examined(cf, at, s, m, locked, expired))
  {
    hide Inv, Lists, AllocOutside, Searched, Advance, Without, RescueSize, CutOut;
    var cursor := Addr(s.mover.page, s.mover.pos);
    match s.cells[cursor]
    case Cleared => AdvanceFree(cf, s, false);
    case Free =>
      FreeAtCursor(cf, s);
      CutOutWired(at, m, s.free, s.owner[cursor.page], cursor);
      AdvanceFree(cf, Clear(s, cursor), false);
    case _ =>
      var it := Target(s, cursor);
      if !s.cells[it].linked || locked || s.cells[it].refs != 1 {
        AdvanceFree(cf, s, true);
      } else if !expired {
        SearchedWired(at, Hold(s, it), m, s.mover.src, s.mover.page, RescueSize(cf, s, cursor),
          cf.perslab[s.mover.src]);
      }
  }

  lemma FreeAtCursor(cf: Config, s: State)
    requires Inv(cf, s) && MoverReady(cf, s) && s.cells[Addr(s.mover.page, s.mover.pos)].Free?
    ensures var cursor := Addr(s.mover.page, s.mover.pos);
      s.owner[cursor.page] < |s.free| && cursor in s.free[s.owner[cursor.page]]
  {}

  lemma AdvanceFree(cf: Config, s: State, wasBusy: bool)
    requires s.mover.Moving? && s.mover.src < |cf.perslab|
    ensures Advance(cf, s, wasBusy).free == s.free
  {}

  lemma CompleteWired(cf: Config, at: Addr -> Ref, s: State, m: Memory)
    requires Layout(at) && Wired(at, s, m) && Inv(cf, s) && Enabled(cf, s, CompleteRescue)
    ensures Wired(at, Complete(cf, s), Wires(cf, at, s, CompleteRescue, m))
  {
    hide Inv, Wired, Advance, FreeItem, FreedItem, Repoint, Distinct, Listed;
    var r, t := s.mover.rescue, s.(mover := s.mover.(rescue := NoRescue));
    if r.to.None? {
      var u := Detach(t, r.it);
      SameFree(at, s, u, m);
      ReviseListed(cf, s, u, r.it);
      assert forall p :: Known(t, p) ==> Known(u, p);
      FreeItemWired(at, u, m, r.it);
      SameOwnerItem(at, u, Detach(s, r.it), m, r.it);
      FreeItemMover(u, r.it);
      AdvanceFree(cf, FreeItem(u, r.it), true);
      SameFree(at, FreeItem(u, r.it), Complete(cf, s), FreedItem(at, u, m, r.it));
    } else {
      var u := Uncharge(t, r.to.value);
      var v := if r.part.None? then MoveItem(u, r.it, r.to.value) else MovePart(u, r.it, r.part.value, r.to.value);
      AdvanceFree(cf, v, false);
      SameFree(at, s, Complete(cf, s), m);
    }
  }

  lemma SameOwnerItem(at: Addr -> Ref, s: State, t: State, m: Memory, a: Addr)
    requires IsItem(s, a) && IsItem(t, a) && s.owner == t.owner && s.cells[a].parts == t.cells[a].parts
    ensures FreedItem(at, s, m, a) == FreedItem(at, t, m, a)
  {
    SameOwner(at, s, t, m, [a] + s.cells[a].parts);
  }

  lemma {:induction false} ReleaseFree(cf: Config, s: State)
    requires 0 < |s.pages|
    ensures Release(cf, s).free == s.free
    decreases |s.pages[0]|
  {
    if s.malloced > cf.limit && s.pages[0] != [] && s.malloced >= cf.pageSize {
      var last := |s.pages[0]| - 1;
      ReleaseFree(cf, s.(pages := s.pages[0 := s.pages[0][..last]], owner := s.owner - {s.pages[0][last]},
        malloced := s.malloced - cf.pageSize));
    }
  }

  lemma FinishWired(cf: Config, at: Addr -> Ref, s: State, m: Memory)
    requires Layout(at) && Wired(at, s, m) && Inv(cf, s) && Enabled(cf, s, FinishMove)
    ensures Wired(at, Finish(cf, s), Wires(cf, at, s, FinishMove, m))
  {
    hide PagesOk, CellsOk, FreeOk, CountsOk, MemoryOk, Heap, Wired, Release, AddPage, Split;
    var mv, t := s.mover, TakePage(s);
    SameFree(at, s, t, m);
    if mv.dst == 0 {
      var u := t.(pages := t.pages[0 := t.pages[0] + [mv.page]], owner := t.owner[mv.page := 0]);
      ReleaseFree(cf, u);
      SameFree(at, s, Finish(cf, s), m);
    } else {
      VictimUnlisted(cf, s);
      AddPageWired(at, cf, t, m, mv.dst, mv.page);
    }
  }

  lemma VictimUnlisted(cf: Config, s: State)
    requires Inv(cf, s) && s.mover.Moving? && s.mover.done
    ensures forall d, a :: 0 <= d < |s.free| && a in s.free[d] ==> a.page != s.mover.page
  {
    hide PagesOk, CountsOk, MemoryOk, Heap;
    forall d, a | 0 <= d < |s.free| && a in s.free[d]
      ensures a.page != s.mover.page
    {
      assert a in s.cells && s.cells[a].Free?;
      if a.page == s.mover.page {
        VictimChunk(cf, s, a);
      }
    }
  }

  lemma VictimChunk(cf: Config, s: State, a: Addr)
    requires Inv(cf, s) && s.mover.Moving? && s.mover.done && a in s.cells && a.page == s.mover.page
    ensures s.cells[a].Cleared?
  {
    hide PagesOk, FreeOk, CountsOk, MemoryOk, Heap;
    MoverOwner(cf, s);
    assert IsCleared(s, s.mover.page, a.idx);
  }

  lemma MoverOwner(cf: Config, s: State)
    requires Base(cf, s) && s.mover.Moving?
    ensures s.mover.page in s.owner && s.owner[s.mover.page] == s.mover.src
  {
    hide CellsOk, FreeOk, CountsOk, MemoryOk;
    assert s.mover.page in s.pages[s.mover.src];
  }

  /** Every step's pointer writes do to the lists in memory what the step does to the free lists. */
  lemma StepWired(cf: Config, at: Addr -> Ref, s: State, a: Action, m: Memory)
    requires Layout(at) && Wired(at, s, m) && Inv(cf, s) && Enabled(cf, s, a)
    ensures Wired(at, Apply(cf, s, a), Wires(cf, at, s, a, m))
  {
    hide Inv, Lists, Base, NewSlab, Grown, FreeIfLast, Dropped, Examine, Examined, Complete, Finish, FreedItem,
         Split, Taken;
    match a
    case Grow(c, memory) =>
      InvBase(cf, s);
      GrowWired(cf, at, s, c, memory, m);
    case Alloc(c, size) => TakenWired(at, m, s.free, c);
    case UnlinkItem(x) => LastReference(cf, at, s, Detach(s, x), x, m);
    case Remove(x) => LastReference(cf, at, s, SetCell(s, x, s.cells[x].(refs := s.cells[x].refs - 1)), x, m);
    case ExamineChunk(locked, expired) => ExamineWired(cf, at, s, m, locked, expired);
    case CompleteRescue => CompleteWired(cf, at, s, m);
    case FinishMove => FinishWired(cf, at, s, m);
    case Fill(_, _, _) =>
    case Attach(_, _, _) =>
    case Write(_, _) =>
    case LinkItem(_) =>
    case Get(_) =>
    case StartMove(_, _) =>
  }

  lemma InvBase(cf: Config, s: State)
    requires Inv(cf, s)
    ensures Base(cf, s)
  {}

  // ----- whole runs -----

  /** Between steps the chunks that are not free may get any pointers: LRU links, chunk chains, data. */
  ghost predicate Scribbled(at: Addr -> Ref, s: State, m: Memory, m': Memory) {
    && m'.slots == m.slots && m'.slCurr == m.slCurr
    && forall a :: a in s.cells && s.cells[a].Free? && at(a) in m.prev && at(a) in m.next ==>
         at(a) in m'.prev && at(a) in m'.next && m'.prev[at(a)] == m.prev[at(a)] && m'.next[at(a)] == m.next[at(a)]
  }

  lemma ScribbledList(at: Addr -> Ref, s: State, m: Memory, m': Memory, c: nat)
    requires Listed(s) && Scribbled(at, s, m, m') && c < |s.free| && IsList(m.prev, m.next, Refs(at, s.free[c]))
    ensures IsList(m'.prev, m'.next, Refs(at, s.free[c]))
  {
    hide IsList;
    var rs := Refs(at, s.free[c]);
    forall x | x in rs
      ensures x in m.prev && x in m.next && x in m'.prev && x in m'.next
      ensures m'.prev[x] == m.prev[x] && m'.next[x] == m.next[x]
    {
      var i :| 0 <= i < |rs| && rs[i] == x;
      assert s.free[c][i] in s.free[c] && x == at(s.free[c][i]);
      Pointers(m.prev, m.next, rs, i);
    }
    SameList(m.prev, m.next, m'.prev, m'.next, rs);
  }

  lemma ScribbledWired(at: Addr -> Ref, s: State, m: Memory, m': Memory)
    requires Wired(at, s, m) && Listed(s) && Scribbled(at, s, m, m')
    ensures Wired(at, s, m')
  {
    hide IsList, Apart, Listed;
    forall c | 0 <= c < |s.free|
      ensures IsList(m'.prev, m'.next, Refs(at, s.free[c]))
    {
      ScribbledList(at, s, m, m', c);
    }
  }

  /** A run together with its memory, which starts without free chunks. */
  ghost predicate IsMemoryRun(cf: Config, at: Addr -> Ref, states: seq<State>, actions: seq<Action>,
                              mems: seq<Memory>) {
    && IsRun(cf, states, actions) && Layout(at) && |mems| == |states|
    && mems[0].slots == seq(|cf.perslab|, _ => 0) && mems[0].slCurr == seq(|cf.perslab|, _ => 0)
    && forall k {:trigger mems[k]} :: 0 <= k < |actions| ==>
         && Enabled(cf, states[k], actions[k])
         && Scribbled(at, states[k + 1], Wires(cf, at, states[k], actions[k], mems[k]), mems[k + 1])
  }

  /**
    In every reachable state each class's free list is, in memory, a doubly linked
    list of sl_curr chunks of that class, each of them free.
   */
  lemma {:induction false} RunWired(cf: Config, at: Addr -> Ref, states: seq<State>, actions: seq<Action>,
                                    mems: seq<Memory>, k: nat)
    requires IsMemoryRun(cf, at, states, actions, mems) && k < |states|
    ensures Wired(at, states[k], mems[k]) && Listed(states[k])
  {
    hide Lists, Listed, Scribbled, Inv, Enabled, Apply, Wires, Layout;
    RunInv(cf, states, actions, k);
    RunListed(cf, states[k]);
    if k == 0 {
      FirstWired(cf, at, mems[0]);
    } else {
      RunWired(cf, at, states, actions, mems, k - 1);
      RunInv(cf, states, actions, k - 1);
      assert mems[k - 1] == mems[k - 1];
      StepWired(cf, at, states[k - 1], actions[k - 1], mems[k - 1]);
      ScribbledWired(at, states[k], Wires(cf, at, states[k - 1], actions[k - 1], mems[k - 1]), mems[k]);
    }
  }

  lemma FirstWired(cf: Config, at: Addr -> Ref, m: Memory)
    requires cf.Valid() && m.slots == seq(|cf.perslab|, _ => 0) && m.slCurr == seq(|cf.perslab|, _ => 0)
    ensures Wired(at, Init(cf), m)
  {
    var o := Orders(at, Init(cf).free);
    assert forall c :: 0 <= c < |o| ==> o[c] == [];
  }

  lemma RunListed(cf: Config, s: State)
    requires Inv(cf, s)
    ensures Listed(s)
  {}
}
