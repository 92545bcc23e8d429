/** What the slab allocator and the page mover guarantee in every run. */
module SlabsTheorems {
  import opened SlabsTypes
  import opened SlabsSteps
  import opened SlabsInvariant
  import opened SlabsBase
  import opened SlabsPages
  import opened SlabsHeap
  import opened SlabsProofs
  import opened SlabsMoves
  import opened LruSpec

  // ----- an emptied page -----

  /** No list, table, LRU entry or pointer refers to a chunk of the page. */
  ghost predicate Unreferenced(s: State, page: Page) {
    && (forall c, a :: 0 <= c < |s.free| && a in s.free[c] ==> a.page != page)
    && (forall a :: a in s.lru ==> a.page != page)
    && (forall k :: k in s.table ==> s.table[k].page != page)
    && (forall a, p :: IsItem(s, a) && p in s.cells[a].parts ==> a.page != page && p.page != page)
    && (forall p :: p in s.cells && s.cells[p].Part? ==> p.page != page && s.cells[p].head.page != page)
  }

  /** When the mover is done with a page, each of its chunks is cleared and nothing refers to any of them. */
  lemma DonePageIsEmpty(cf: Config, states: seq<State>, actions: seq<Action>, k: nat)
    requires IsRun(cf, states, actions) && k < |states| && states[k].mover.Moving? && states[k].mover.done
    ensures var s := states[k]; var m := s.mover;
      m.src < |cf.perslab| && forall i :: 0 <= i < cf.perslab[m.src] ==> IsCleared(s, m.page, i)
    ensures Unreferenced(states[k], states[k].mover.page)
  {
    hide IsRun, PagesOk, CellsOk, FreeOk, CountsOk, MemoryOk, ItemsOk, ChainOk, RefsOk, RescueOk;
    RunInv(cf, states, actions, k);
    DoneIsCleared(cf, states[k]);
    ClearedIsUnreferenced(states[k]);
  }

  lemma ClearedIsUnreferenced(s: State)
    requires FreeOk(s) && ItemsOk(s) && ChainOk(s, {}) && VictimCleared(s)
    ensures Unreferenced(s, s.mover.page)
  {
    hide Distinct;
    assert forall a :: a in s.cells && !s.cells[a].Cleared? ==> a.page != s.mover.page;
    assert forall a, p :: IsItem(s, a) && p in s.cells[a].parts ==> a.page != s.mover.page && p.page != s.mover.page;
  }

  // ----- what clients see -----

  function PartBytes(cells: map<Addr, Cell>, parts: seq<Addr>): string {
    if parts == [] then ""
    else (if parts[0] in cells && cells[parts[0]].Part? then cells[parts[0]].bytes else "")
         + PartBytes(cells, parts[1..])
  }

  function ValueAt(cells: map<Addr, Cell>, a: Addr): string
    requires a in cells && cells[a].Item?
  {
    cells[a].data.bytes + PartBytes(cells, cells[a].parts)
  }

  /** Flags, expiry and value of every key. */
  function View(s: State): map<Key, (nat, nat, string)> {
    map k | k in s.table && IsItem(s, s.table[k]) ::
      (s.cells[s.table[k]].data.flags, s.cells[s.table[k]].data.exptime, ValueAt(s.cells, s.table[k]))
  }

  predicate SameBytes(cells: map<Addr, Cell>, p: Addr, cells': map<Addr, Cell>, p': Addr) {
    p in cells && cells[p].Part? && p' in cells' && cells'[p'].Part? && cells[p].bytes == cells'[p'].bytes
  }

  /** The chunks of both lists hold the same bytes, one by one. */
  lemma {:induction false} SamePartBytes(cells: map<Addr, Cell>, parts: seq<Addr>, cells': map<Addr, Cell>,
                                         parts': seq<Addr>)
    requires |parts| == |parts'|
    requires forall i :: 0 <= i < |parts| ==> SameBytes(cells, parts[i], cells', parts'[i])
    ensures PartBytes(cells, parts) == PartBytes(cells', parts')
  {
    if parts != [] {
      SamePartBytes(cells, parts[1..], cells', parts'[1..]);
    }
  }

  /** Items that are the same in both states have the same value. */
  lemma SameValue(s: State, t: State, a: Addr)
    requires PartsOk(s, {}) && IsItem(s, a) && IsItem(t, a) && t.cells[a].data == s.cells[a].data
    requires t.cells[a].parts == s.cells[a].parts
    requires forall p :: p in s.cells[a].parts ==>
      p in t.cells && t.cells[p].Part? && (p in s.cells && s.cells[p].Part? ==> t.cells[p].bytes == s.cells[p].bytes)
    ensures ValueAt(t.cells, a) == ValueAt(s.cells, a)
  {
    var parts := s.cells[a].parts;
    forall i | 0 <= i < |parts|
      ensures SameBytes(s.cells, parts[i], t.cells, parts[i])
    {
      assert parts[i] in parts;
    }
    SamePartBytes(s.cells, parts, t.cells, parts);
  }

  /** Linked items and their chunks keep what clients see of them, and keys keep their items. */
  ghost predicate KeepsContent(s: State, t: State) {
    && t.table == s.table
    && (forall a :: IsItem(s, a) && s.cells[a].linked ==>
         IsItem(t, a) && t.cells[a].data == s.cells[a].data && t.cells[a].parts == s.cells[a].parts)
    && (forall p :: p in s.cells && s.cells[p].Part? && IsItem(s, s.cells[p].head)
                    && s.cells[s.cells[p].head].linked ==>
          p in t.cells && t.cells[p].Part? && t.cells[p].bytes == s.cells[p].bytes)
  }

  lemma ContentView(s: State, t: State)
    requires Heap(s, {}) && KeepsContent(s, t)
    ensures View(t) == View(s)
  {
    hide ItemsOk, RefsOk, ChainsOk, HeadsOk, RescueOk, ValueAt;
    forall k | k in s.table
      ensures IsItem(s, s.table[k]) && IsItem(t, s.table[k]) && t.cells[s.table[k]].data == s.cells[s.table[k]].data
      ensures ValueAt(t.cells, s.table[k]) == ValueAt(s.cells, s.table[k])
    {
      TableItem(s, k);
      SameValue(s, t, s.table[k]);
    }
  }

  // ----- a rescue -----

  lemma MoveItemView(s: State, it: Addr, to: Addr)
    requires Heap(s, {}) && CanMove(s, it, to) && ItemMoved(s, MoveItem(s, it, to), it, to)
    ensures View(MoveItem(s, it, to)) == View(s)
  {
    hide ItemsOk, RefsOk, ChainsOk, HeadsOk, RescueOk, MoveItem, ValueAt;
    var t, key := MoveItem(s, it, to), s.cells[it].data.key;
    TableFacts(s, it);
    PartsElsewhere(s, it);
    PartsElsewhere(s, to);
    MovedValue(s, t, it, to);
    forall k | k in s.table
      ensures IsItem(s, s.table[k])
      ensures k != key ==>
        && IsItem(t, s.table[k]) && t.cells[s.table[k]] == s.cells[s.table[k]]
        && ValueAt(t.cells, s.table[k]) == ValueAt(s.cells, s.table[k])
    {
      TableItem(s, k);
      if k != key {
        OtherItem(s, t, it, to, s.table[k]);
      }
    }
  }

  lemma OtherItem(s: State, t: State, it: Addr, to: Addr, a: Addr)
    requires PartsOk(s, {}) && CanMove(s, it, to) && ItemMoved(s, t, it, to) && IsItem(s, a) && a != it && a != to
    ensures IsItem(t, a) && t.cells[a] == s.cells[a] && ValueAt(t.cells, a) == ValueAt(s.cells, a)
  {
    SameValue(s, t, a);
  }

  lemma TableFacts(s: State, a: Addr)
    requires ItemsOk(s) && IsItem(s, a) && s.cells[a].linked
    ensures s.cells[a].data.key in s.table && s.table[s.cells[a].data.key] == a
  {}

  lemma TableItem(s: State, k: Key)
    requires ItemsOk(s) && k in s.table
    ensures IsItem(s, s.table[k]) && s.cells[s.table[k]].linked && s.cells[s.table[k]].data.key == k
  {}

  lemma MovedValue(s: State, t: State, it: Addr, to: Addr)
    requires PartsOk(s, {}) && CanMove(s, it, to) && ItemMoved(s, t, it, to) && it !in s.cells[it].parts
    requires to !in s.cells[it].parts
    ensures ValueAt(t.cells, to) == ValueAt(s.cells, it)
  {
    var parts := s.cells[it].parts;
    forall i | 0 <= i < |parts|
      ensures SameBytes(s.cells, parts[i], t.cells, parts[i])
    {
      assert parts[i] in parts;
    }
    SamePartBytes(s.cells, parts, t.cells, parts);
  }

  lemma MovePartView(s: State, it: Addr, part: Addr, to: Addr)
    requires Heap(s, {}) && CanMove(s, it, to) && part in s.cells[it].parts && part in s.cells && s.cells[part].Part?
    ensures View(MovePart(s, it, part, to)) == View(s)
  {
    hide ItemsOk, RefsOk, ChainsOk, HeadsOk, RescueOk, ValueAt, MovePart;
    var t := MovePart(s, it, part, to);
    forall k | k in s.table
      ensures IsItem(s, s.table[k]) && IsItem(t, s.table[k]) && t.cells[s.table[k]].data == s.cells[s.table[k]].data
      ensures ValueAt(t.cells, s.table[k]) == ValueAt(s.cells, s.table[k])
    {
      TableItem(s, k);
      PartMovedValue(s, it, part, to, s.table[k]);
    }
    MovePartTable(s, it, part, to);
  }

  lemma MovePartTable(s: State, it: Addr, part: Addr, to: Addr)
    requires IsItem(s, it) && part in s.cells && s.cells[part].Part?
    ensures MovePart(s, it, part, to).table == s.table
  {}

  lemma PartMovedValue(s: State, it: Addr, part: Addr, to: Addr, a: Addr)
    requires PartsOk(s, {}) && CanMove(s, it, to) && part in s.cells[it].parts && part in s.cells && s.cells[part].Part?
    requires IsItem(s, a) && a != to
    ensures var t := MovePart(s, it, part, to);
      IsItem(t, a) && t.cells[a].data == s.cells[a].data && ValueAt(t.cells, a) == ValueAt(s.cells, a)
  {
    var t, parts, parts' := MovePart(s, it, part, to), s.cells[a].parts, MovePart(s, it, part, to).cells[a].parts;
    forall i | 0 <= i < |parts|
      ensures SameBytes(s.cells, parts[i], t.cells, parts'[i])
    {
      assert parts[i] in parts;
    }
    SamePartBytes(s.cells, parts, t.cells, parts');
  }

  // ----- an item that cannot be saved -----

  lemma {:induction false} PushAllCells(s: State, parts: seq<Addr>)
    requires forall a :: a in parts ==> Known(s, a)
    ensures var t := PushAll(s, parts);
      && t.table == s.table
      && forall a :: a !in parts ==> (a in t.cells <==> a in s.cells) && (a in s.cells ==> t.cells[a] == s.cells[a])
    decreases |parts|
  {
    if parts != [] {
      var p, rest := parts[0], parts[1..];
      assert p in parts && parts == [p] + rest;
      assert forall a :: Known(s, a) ==> Known(Push(s, p), a);
      assert forall a :: a in rest ==> a in parts;
      PushAllCells(Push(s, p), rest);
    }
  }

  lemma DropMemory(s: State, a: Addr)
    requires CanFree(s, a) && s.cells[a].refs > 0
    ensures var t := DropItem(s, a);
      && t.table == s.table - {s.cells[a].data.key}
      && forall x :: x != a && x !in s.cells[a].parts && x in s.cells ==> x in t.cells && t.cells[x] == s.cells[x]
  {
    var t := Detach(s, a);
    assert forall p :: Known(s, p) ==> Known(Push(t, a), p);
    PushAllCells(Push(t, a), s.cells[a].parts);
  }

  /** Dropping an item removes its key and nothing else. */
  lemma DropView(s: State, a: Addr)
    requires Heap(s, {}) && CanFree(s, a) && s.cells[a].linked && s.cells[a].refs > 0
    ensures View(DropItem(s, a)) == View(s) - {s.cells[a].data.key}
  {
    hide RefsOk, ChainsOk, HeadsOk, RescueOk, ValueAt, ItemsOk, DropItem;
    var t, key := DropItem(s, a), s.cells[a].data.key;
    DropMemory(s, a);
    TableFacts(s, a);
    PartsElsewhere(s, a);
    forall k | k in s.table && k != key
      ensures IsItem(s, s.table[k]) && IsItem(t, s.table[k]) && t.cells[s.table[k]] == s.cells[s.table[k]]
      ensures ValueAt(t.cells, s.table[k]) == ValueAt(s.cells, s.table[k])
    {
      TableItem(s, k);
      UndroppedValue(s, t, a, s.table[k]);
    }
    forall k | k in s.table ensures IsItem(s, s.table[k]) {
      TableItem(s, k);
    }
  }

  lemma UndroppedValue(s: State, t: State, a: Addr, x: Addr)
    requires PartsOk(s, {}) && IsItem(s, a) && IsItem(s, x) && x != a
    requires forall y :: y != a && y !in s.cells[a].parts && y in s.cells ==> y in t.cells && t.cells[y] == s.cells[y]
    ensures IsItem(t, x) && t.cells[x] == s.cells[x] && ValueAt(t.cells, x) == ValueAt(s.cells, x)
  {
    assert x !in s.cells[a].parts;
    forall p | p in s.cells[x].parts
      ensures p !in s.cells[a].parts && p != a
    {
      assert s.cells[p].head == x;
    }
    SameValue(s, t, x);
  }

  // ----- the mover and what clients see -----

  lemma InUseContent(s: State, t: State)
    requires SameInUse(s, t)
    ensures KeepsContent(s, t)
  {}

  lemma AdvanceView(cf: Config, s: State, wasBusy: bool)
    requires s.mover.Moving? && s.mover.src < |cf.perslab|
    ensures View(Advance(cf, s, wasBusy)) == View(s)
  {}

  lemma PickContent(cf: Config, s: State, expired: bool)
    requires Inv(cf, s) && MoverReady(cf, s)
    requires var at := Addr(s.mover.page, s.mover.pos); InUse(s.cells[at]) && s.cells[Target(s, at)].linked
    ensures KeepsContent(s, Pick(cf, s, expired))
  {
    hide Base, Heap, AllocOutside, RescueSize;
    var m, at := s.mover, Addr(s.mover.page, s.mover.pos);
    var t := Hold(s, Target(s, at));
    HoldKeeps(cf, s, Target(s, at));
    if !expired {
      AllocOutsideKeeps(cf, t, RescueSize(cf, s, at), cf.perslab[m.src]);
    }
  }

  lemma ExamineView(cf: Config, s: State, locked: bool, expired: bool)
    requires Inv(cf, s) && MoverReady(cf, s)
    ensures View(Examine(cf, s, locked, expired)) == View(s)
  {
    hide Base, Heap, Advance, Clear, Hold, View, KeepsContent, SameInUse, AllocOutside;
    var at := Addr(s.mover.page, s.mover.pos);
    match s.cells[at]
    case Cleared => AdvanceView(cf, s, false);
    case Free =>
      ClearKeeps(cf, s, at);
      InUseContent(s, Clear(s, at));
      ContentView(s, Clear(s, at));
      ClearMover(s, at);
      AdvanceView(cf, Clear(s, at), false);
    case _ =>
      var it := Target(s, at);
      if !s.cells[it].linked || locked || s.cells[it].refs != 1 {
        AdvanceView(cf, s, true);
      } else {
        PickContent(cf, s, expired);
        ContentView(s, Pick(cf, s, expired));
      }
  }

  lemma ClearMover(s: State, a: Addr)
    requires Known(s, a)
    ensures Clear(s, a).mover == s.mover
  {}

  /**
    An item or chunk that is moved keeps key, flags, expiry and bytes, and its old
    memory is cleared; an item that cannot be moved disappears alone.
   */
  lemma CompleteView(cf: Config, s: State)
    requires Inv(cf, s) && RescueReady(s)
    ensures s.mover.src < |cf.perslab| && s.mover.rescue.it in s.cells && s.cells[s.mover.rescue.it].Item?
    ensures var r, t, key := s.mover.rescue, Complete(cf, s), s.cells[s.mover.rescue.it].data.key;
      if r.to.None? then View(t) == View(s) - {key}
      else
        && View(t) == View(s) && key in t.table && IsCleared(t, s.mover.page, s.mover.pos)
        && r.to.value.page != s.mover.page
        && t.table[key] == (if r.part.None? then r.to.value else r.it)
        && (r.part.Some? ==>
             IsItem(t, r.it) && r.to.value in t.cells[r.it].parts && r.part.value !in t.cells[r.it].parts)
  {
    hide Base, Heap, Advance, DropItem, MoveItem, MovePart, View;
    var r, t := s.mover.rescue, s.(mover := s.mover.(rescue := NoRescue));
    RescueFacts(cf, s);
    EndRescue(cf, s);
    MoverView(s, NoRescue);
    if r.to.None? {
      DropView(t, r.it);
      DropKeeps(cf, t, r.it);
      AdvanceView(cf, DropItem(t, r.it), true);
    } else {
      var u := Uncharge(t, r.to.value);
      UnchargeHeap(t, r.to.value);
      UnchargeView(t, r.to.value);
      if r.part.None? {
        MovedHeap(u, r.it, r.to.value);
        MoveItemView(u, r.it, r.to.value);
        MoveItemMover(u, r.it, r.to.value);
        AdvanceView(cf, MoveItem(u, r.it, r.to.value), false);
        AdvanceCells(cf, MoveItem(u, r.it, r.to.value), false);
      } else {
        MovePartView(u, r.it, r.part.value, r.to.value);
        PartMoved(u, r.it, r.part.value, r.to.value);
        AdvanceView(cf, MovePart(u, r.it, r.part.value, r.to.value), false);
        AdvanceCells(cf, MovePart(u, r.it, r.part.value, r.to.value), false);
      }
    }
  }

  lemma MoverView(s: State, r: Rescue)
    requires s.mover.Moving?
    ensures View(s.(mover := s.mover.(rescue := r))) == View(s)
  {}

  lemma UnchargeView(s: State, to: Addr)
    requires to in s.cells && s.mover.Moving? && s.mover.src < |s.requested|
    ensures View(Uncharge(s, to)) == View(s)
  {}

  lemma AdvanceCells(cf: Config, s: State, wasBusy: bool)
    requires s.mover.Moving? && s.mover.src < |cf.perslab|
    ensures Advance(cf, s, wasBusy).cells == s.cells && Advance(cf, s, wasBusy).table == s.table
  {}

  lemma PartMoved(s: State, it: Addr, part: Addr, to: Addr)
    requires Heap(s, {}) && CanMove(s, it, to) && part in s.cells[it].parts && part in s.cells
    requires s.cells[part].Part? && part != it
    ensures var t := MovePart(s, it, part, to);
      && t.mover == s.mover && t.table == s.table && part in t.cells && t.cells[part].Cleared? && IsItem(t, it)
      && to in t.cells[it].parts && part !in t.cells[it].parts
      && s.cells[it].data.key in s.table && s.table[s.cells[it].data.key] == it
  {
    TableFacts(s, it);
    assert to !in s.cells[it].parts;
    ReplacedFacts(s.cells[it].parts, part, to);
    hide ItemsOk, RefsOk, ChainOk, RescueOk, Replaced;
  }

  lemma FinishView(cf: Config, s: State)
    requires Inv(cf, s) && Enabled(cf, s, FinishMove)
    ensures View(Finish(cf, s)) == View(s)
  {
    hide Base, Heap, Finish, View, SameInUse, KeepsContent;
    FinishHeap(cf, s);
    InUseContent(s, Finish(cf, s));
    ContentView(s, Finish(cf, s));
  }

  // ----- whole runs -----

  predicate MoverStep(a: Action) {
    a.StartMove? || a.ExamineChunk? || a.CompleteRescue? || a.FinishMove?
  }

  // ----- why an item is given up -----

  /** No chunk of the source class is free, except on the page that is being emptied. */
  predicate NoMemory(s: State) {
    s.mover.Moving? && s.mover.src < |s.free| && forall a :: a in s.free[s.mover.src] ==> a.page == s.mover.page
  }

  lemma {:induction false} SearchFails(s: State, c: nat, page: Page, size: nat, n: nat)
    requires c < |s.free| == |s.requested|
    ensures AllocOutside(s, c, page, size, n).1.None? <==> forall i :: 0 <= i < |s.free[c]| && i < n ==>
      s.free[c][i].page == page
    decreases n
  {
    if n > 0 && s.free[c] != [] && s.free[c][0].page == page {
      var a, rest := s.free[c][0], s.free[c][1..];
      var t := s.(cells := s.cells[a := Cleared], free := s.free[c := rest]);
      SearchFails(t, c, page, size, n - 1);
      assert forall i :: 0 <= i < |rest| ==> rest[i] == s.free[c][i + 1];
      assert forall i :: 0 < i < |s.free[c]| ==> s.free[c][i] == rest[i - 1];
    }
  }

  lemma {:induction false} DistinctCount(xs: seq<Addr>)
    requires Distinct(xs)
    ensures |ToSet(xs)| == |xs|
  {
    if xs != [] {
      DistinctTail(xs);
      DistinctCount(xs[1..]);
      assert xs[0] !in xs[1..] && xs == [xs[0]] + xs[1..];
      assert ToSet(xs) == {xs[0]} + ToSet(xs[1..]);
    }
  }

  lemma {:induction false} SubsetCount(a: set<Addr>, b: set<Addr>)
    requires a <= b
    ensures |a| <= |b|
  {
    if a != {} {
      var x :| x in a;
      SubsetCount(a - {x}, b - {x});
    }
  }

  function Chunks(page: Page, n: nat): (r: set<Addr>)
    ensures |r| == n && forall a :: a in r <==> a.page == page && a.idx < n
  {
    if n == 0 then {} else Chunks(page, n - 1) + {Addr(page, n - 1)}
  }

  /** Different chunks of one page, but not the one at hole, are fewer than the page has. */
  lemma TooFew(xs: seq<Addr>, page: Page, n: nat, hole: nat)
    requires hole < n && Distinct(xs) && forall a :: a in xs ==> a.page == page && a.idx < n && a.idx != hole
    ensures |xs| < n
  {
    DistinctCount(xs);
    SubsetCount(ToSet(xs), Chunks(page, n) - {Addr(page, hole)});
  }

  lemma CursorNotFree(cf: Config, s: State, a: Addr)
    requires Inv(cf, s) && MoverReady(cf, s) && InUse(s.cells[Addr(s.mover.page, s.mover.pos)])
    requires a in s.free[s.mover.src]
    ensures a != Addr(s.mover.page, s.mover.pos) && a.idx < cf.perslab[s.mover.src]
  {
    hide PagesOk, MoverOk, CountsOk, MemoryOk, Heap, Distinct;
  }

  /** As many tries as the page has chunks are enough, for the chunk at the cursor is in use. */
  lemma EnoughTries(cf: Config, s: State)
    requires Inv(cf, s) && MoverReady(cf, s) && InUse(s.cells[Addr(s.mover.page, s.mover.pos)])
    ensures (forall i :: 0 <= i < |s.free[s.mover.src]| && i < cf.perslab[s.mover.src] ==>
      s.free[s.mover.src][i].page == s.mover.page)
      <==> NoMemory(s)
  {
    hide Inv, Distinct;
    var free, n := s.free[s.mover.src], cf.perslab[s.mover.src];
    FreeDistinct(cf, s);
    if (forall i :: 0 <= i < |free| && i < n ==> free[i].page == s.mover.page) && n <= |free| {
      forall a | a in free[..n]
        ensures a.page == s.mover.page && a.idx < n && a.idx != s.mover.pos
      {
        assert a in free;
        CursorNotFree(cf, s, a);
      }
      DistinctPrefix(free, n);
      TooFew(free[..n], s.mover.page, n, s.mover.pos);
    }
  }

  lemma DistinctPrefix(xs: seq<Addr>, n: nat)
    requires Distinct(xs) && n <= |xs|
    ensures Distinct(xs[..n])
  {}

  lemma FreeDistinct(cf: Config, s: State)
    requires Inv(cf, s) && MoverReady(cf, s)
    ensures Distinct(s.free[s.mover.src]) && s.mover.pos < cf.perslab[s.mover.src]
  {
    hide PagesOk, CellsOk, CountsOk, MemoryOk, Heap;
  }

  /**
    A rescue goes without new memory exactly when the item had expired or its class
    had no free chunk on another page.
   */
  lemma GivesUpIff(cf: Config, s: State, locked: bool, expired: bool)
    requires Inv(cf, s) && MoverReady(cf, s)
    ensures var t := Examine(cf, s, locked, expired);
      t.mover.Moving? && t.mover.rescue.Rescue? ==> (t.mover.rescue.to.None? <==> expired || NoMemory(s))
  {
    hide Inv, AllocOutside, RescueSize;
    var at := Addr(s.mover.page, s.mover.pos);
    if InUse(s.cells[at]) {
      EnoughTries(cf, s);
      var t := Hold(s, Target(s, at));
      SearchFails(t, s.mover.src, s.mover.page, RescueSize(cf, s, at), cf.perslab[s.mover.src]);
    }
  }

  /** The rescue of state k was begun by step j, and goes without memory for a reason that held then. */
  ghost predicate Began(states: seq<State>, actions: seq<Action>, j: nat, k: nat)
    requires k < |states| == |actions| + 1 && states[k].mover.Moving? && states[k].mover.rescue.Rescue?
  {
    && j < k && actions[j].ExamineChunk? && states[j + 1].mover == states[k].mover
    && (states[k].mover.rescue.to.None? <==> actions[j].expired || NoMemory(states[j]))
  }

  lemma WorkerKeepsMover(cf: Config, s: State, a: Action)
    requires Enabled(cf, s, a) && !MoverStep(a)
    ensures Apply(cf, s, a).mover == s.mover
  {
    hide FreeItem;
    if a.UnlinkItem? {
      LastKeepsMover(Detach(s, a.a), a.a);
    } else if a.Remove? {
      LastKeepsMover(SetCell(s, a.a, s.cells[a.a].(refs := s.cells[a.a].refs - 1)), a.a);
    }
  }

  lemma LastKeepsMover(s: State, a: Addr)
    requires IsItem(s, a)
    ensures FreeIfLast(s, a).mover == s.mover
  {
    hide FreeItem;
    if s.cells[a].refs == 0 && CanFree(s, a) {
      FreeItemMover(s, a);
    }
  }

  lemma {:induction false} ReleaseKeepsMover(cf: Config, s: State)
    requires 0 < |s.pages|
    ensures Release(cf, s).mover == s.mover
    decreases |s.pages[0]|
  {
    if s.malloced > cf.limit && s.pages[0] != [] && s.malloced >= cf.pageSize {
      var last := |s.pages[0]| - 1;
      ReleaseKeepsMover(cf, s.(pages := s.pages[0 := s.pages[0][..last]], owner := s.owner - {s.pages[0][last]},
        malloced := s.malloced - cf.pageSize));
    }
  }

  /** Only the look at a chunk begins a rescue. */
  lemma OnlyExamineBegins(cf: Config, s: State, a: Action)
    requires Enabled(cf, s, a) && MoverStep(a) && !a.ExamineChunk?
    ensures !(Apply(cf, s, a).mover.Moving? && Apply(cf, s, a).mover.rescue.Rescue?)
  {
    hide FreeItem, MoveItem, MovePart, AddPage, Release;
    match a
    case StartMove(_, _) =>
    case CompleteRescue => CompleteEnds(cf, s);
    case FinishMove =>
      var m, t := s.mover, TakePage(s);
      if m.dst == 0 {
        ReleaseKeepsMover(cf, t.(pages := t.pages[0 := t.pages[0] + [m.page]], owner := t.owner[m.page := 0]));
      } else {
        AddPageMover(cf, t, m.dst, m.page);
      }
    case _ =>
  }

  lemma AddPageMover(cf: Config, s: State, c: nat, page: Page)
    requires 1 <= c < |s.pages| == |s.free| == |cf.perslab|
    ensures AddPage(cf, s, c, page).mover == s.mover
  {}

  lemma CompleteEnds(cf: Config, s: State)
    requires RescueReady(s) && s.mover.src < |cf.perslab|
    ensures Complete(cf, s).mover.Moving? && Complete(cf, s).mover.rescue.NoRescue?
  {
    hide FreeItem, MoveItem;
    var r, t := s.mover.rescue, s.(mover := s.mover.(rescue := NoRescue));
    if r.to.None? {
      var u := Detach(t, r.it);
      assert forall p :: Known(t, p) ==> Known(u, p);
      FreeItemMover(u, r.it);
    } else if r.part.None? {
      MoveItemMover(Uncharge(t, r.to.value), r.it, r.to.value);
    }
  }

  lemma {:induction false} RescueBegan(cf: Config, states: seq<State>, actions: seq<Action>, k: nat) returns (j: nat)
    requires IsRun(cf, states, actions) && k < |states| && states[k].mover.Moving? && states[k].mover.rescue.Rescue?
    ensures Began(states, actions, j, k)
    decreases k
  {
    hide Inv, Apply, Enabled, Init, NoMemory;
    if k == 0 {
      InitIdle(cf);
    } else {
      RunStep(cf, states, actions, k - 1);
      var s, a := states[k - 1], actions[k - 1];
      if a.ExamineChunk? {
        ExamineEnabled(cf, s, a.locked, a.expired);
        GivesUpIff(cf, s, a.locked, a.expired);
        j := k - 1;
      } else if MoverStep(a) {
        OnlyExamineBegins(cf, s, a);
      } else {
        WorkerKeepsMover(cf, s, a);
        j := RescueBegan(cf, states, actions, k - 1);
      }
    }
  }

  lemma InitIdle(cf: Config)
    ensures Init(cf).mover.Idle?
  {}

  lemma ExamineEnabled(cf: Config, s: State, locked: bool, expired: bool)
    requires Enabled(cf, s, ExamineChunk(locked, expired))
    ensures MoverReady(cf, s) && Apply(cf, s, ExamineChunk(locked, expired)) == Examine(cf, s, locked, expired)
  {}

  /**
    In every run, a step of the mover shows clients the same contents, unless it
    gives up an item. That item had expired when the mover looked at it, or then
    no chunk of its class was free outside the page being emptied.
   */
  lemma MoverIsInvisible(cf: Config, states: seq<State>, actions: seq<Action>, k: nat)
    requires IsRun(cf, states, actions) && k < |actions| && MoverStep(actions[k])
    requires actions[k].CompleteRescue? ==> RescueReady(states[k])
    ensures var s, t := states[k], states[k + 1];
      View(t) == if actions[k].CompleteRescue? && s.mover.rescue.to.None?
                 then View(s) - {s.cells[s.mover.rescue.it].data.key} else View(s)
    ensures actions[k].CompleteRescue? ==> exists j :: Began(states, actions, j, k)
  {
    hide Init, Inv, View, Apply, Enabled, Began;
    RunStep(cf, states, actions, k);
    MoverStepView(cf, states[k], actions[k]);
    if actions[k].CompleteRescue? {
      var j := RescueBegan(cf, states, actions, k);
    }
  }

  lemma RunStep(cf: Config, states: seq<State>, actions: seq<Action>, k: nat)
    requires IsRun(cf, states, actions) && k < |actions|
    ensures Inv(cf, states[k]) && Enabled(cf, states[k], actions[k])
    ensures states[k + 1] == Apply(cf, states[k], actions[k])
  {
    hide Inv, Apply, Enabled, Init;
    RunInv(cf, states, actions, k);
  }

  lemma MoverStepView(cf: Config, s: State, a: Action)
    requires Inv(cf, s) && Enabled(cf, s, a) && MoverStep(a) && (a.CompleteRescue? ==> RescueReady(s))
    ensures View(Apply(cf, s, a)) ==
      if a.CompleteRescue? && s.mover.rescue.to.None? then View(s) - {s.cells[s.mover.rescue.it].data.key} else View(s)
  {
    hide Inv, View, Examine, Complete, Finish, Start;
    match a
    case StartMove(src, dst) => StartView(s, src, dst);
    case ExamineChunk(locked, expired) => ExamineView(cf, s, locked, expired);
    case CompleteRescue => CompleteView(cf, s);
    case FinishMove => FinishView(cf, s);
    case _ =>
  }

  lemma StartView(s: State, src: nat, dst: nat)
    ensures View(Start(s, src, dst)) == View(s)
  {}

  // ----- workers and what clients see -----

  lemma FreeItemMemory(s: State, a: Addr)
    requires CanFree(s, a)
    ensures var t := FreeItem(s, a);
      && t.table == s.table
      && forall x :: x != a && x !in s.cells[a].parts && x in s.cells ==> x in t.cells && t.cells[x] == s.cells[x]
  {
    assert forall p :: Known(s, p) ==> Known(Push(s, a), p);
    PushAllCells(Push(s, a), s.cells[a].parts);
  }

  /** Freeing an item that is not linked is invisible. */
  lemma FreeItemView(s: State, a: Addr)
    requires ItemsOk(s) && PartsOk(s, {}) && CanFree(s, a) && !s.cells[a].linked
    ensures View(FreeItem(s, a)) == View(s)
  {
    hide ItemsOk, FreeItem, ValueAt;
    var t := FreeItem(s, a);
    FreeItemMemory(s, a);
    forall k | k in s.table
      ensures IsItem(s, s.table[k]) && IsItem(t, s.table[k]) && t.cells[s.table[k]] == s.cells[s.table[k]]
      ensures ValueAt(t.cells, s.table[k]) == ValueAt(s.cells, s.table[k])
    {
      TableItem(s, k);
      UndroppedValue(s, t, a, s.table[k]);
    }
  }

  lemma DetachView(s: State, a: Addr)
    requires Heap(s, {}) && IsItem(s, a) && s.cells[a].linked && s.cells[a].refs > 0
    ensures View(Detach(s, a)) == View(s) - {s.cells[a].data.key}
  {
    hide ItemsOk, RefsOk, ChainsOk, HeadsOk, RescueOk, ValueAt;
    var t := Detach(s, a);
    TableFacts(s, a);
    forall k | k in s.table
      ensures IsItem(s, s.table[k]) && IsItem(t, s.table[k]) && t.cells[s.table[k]].data == s.cells[s.table[k]].data
      ensures ValueAt(t.cells, s.table[k]) == ValueAt(s.cells, s.table[k])
    {
      TableItem(s, k);
      SameValue(s, t, s.table[k]);
    }
  }

  lemma UnlinkView(cf: Config, s: State, a: Addr)
    requires Inv(cf, s) && CanFree(s, a) && s.cells[a].linked && s.cells[a].refs > 0 && !Reserved(s, a)
    ensures View(FreeIfLast(Detach(s, a), a)) == View(s) - {s.cells[a].data.key}
  {
    hide Base, Heap, View, FreeItem, Detach;
    DetachView(s, a);
    DetachHeap(s, a, {});
    DetachItem(s, a);
    DetachParts(s, a);
    if Detach(s, a).cells[a].refs == 0 && CanFree(Detach(s, a), a) {
      FreeItemView(Detach(s, a), a);
    }
  }

  lemma DetachItem(s: State, a: Addr)
    requires IsItem(s, a) && s.cells[a].refs > 0
    ensures IsItem(Detach(s, a), a) && !Detach(s, a).cells[a].linked
  {}

  lemma DetachParts(s: State, a: Addr)
    requires Heap(s, {}) && IsItem(s, a) && s.cells[a].linked && s.cells[a].refs > 0
    ensures ItemsOk(Detach(s, a)) && PartsOk(Detach(s, a), {})
  {
    hide ItemsOk, RefsOk, RescueOk, ChainOk, Detach;
    DetachItemsOk(s, a);
    ReviseChainOf(s, a, {});
    ReviseChain(s, Detach(s, a), a, Detach(s, a).cells[a], {}) by { DetachCells(s, a); }
    ChainParts(Detach(s, a));
  }

  lemma DetachCells(s: State, a: Addr)
    requires IsItem(s, a) && s.cells[a].refs > 0
    ensures Detach(s, a).cells == s.cells[a := s.cells[a].(linked := false, refs := s.cells[a].refs - 1)]
  {}

  lemma ChainParts(s: State)
    requires ChainOk(s, {})
    ensures PartsOk(s, {})
  {}

  lemma LinkView(s: State, a: Addr)
    requires Heap(s, {}) && IsItem(s, a) && !s.cells[a].linked && s.cells[a].data.key !in s.table
    ensures View(Link(s, a)) == View(s)[s.cells[a].data.key := (s.cells[a].data.flags, s.cells[a].data.exptime,
      ValueAt(s.cells, a))]
  {
    hide ItemsOk, RefsOk, ChainsOk, HeadsOk, RescueOk, ValueAt;
    var t := Link(s, a);
    SameValue(s, t, a);
    forall k | k in s.table
      ensures IsItem(s, s.table[k]) && IsItem(t, s.table[k]) && t.cells[s.table[k]].data == s.cells[s.table[k]].data
      ensures ValueAt(t.cells, s.table[k]) == ValueAt(s.cells, s.table[k])
    {
      TableItem(s, k);
      SameValue(s, t, s.table[k]);
    }
  }

  /** Uploading is invisible until the item is linked. */
  lemma UploadContent(cf: Config, s: State, a: Action)
    requires Inv(cf, s) && Enabled(cf, s, a) && (a.Fill? || a.Attach? || a.Write?)
    ensures KeepsContent(s, Apply(cf, s, a))
  {
    hide Base, ItemsOk, RefsOk, RescueOk, ChainsOk, PartsOk;
    match a
    case Fill(x, data, chunked) =>
    case Attach(head, x, bytes) =>
    case Write(x, bytes) =>
  }

  lemma AllocContent(cf: Config, s: State, c: nat, size: nat)
    requires Base(cf, s) && c < |s.free| && s.free[c] != []
    ensures KeepsContent(s, Pop(s, c, size))
  {
    hide Base, Without;
    HeadOfFree(cf, s, c);
  }

  lemma HoldContent(s: State, a: Addr, refs: nat)
    requires IsItem(s, a)
    ensures KeepsContent(s, SetCell(s, a, s.cells[a].(refs := refs)))
  {}

  lemma RemoveView(cf: Config, s: State, a: Addr)
    requires Inv(cf, s) && Enabled(cf, s, Remove(a))
    ensures View(Unhold(s, a)) == View(s)
  {
    hide Base, Heap, View, FreeItem, KeepsContent;
    var it := s.cells[a].(refs := s.cells[a].refs - 1);
    var t := SetCell(s, a, it);
    HoldContent(s, a, it.refs);
    ContentView(s, t);
    if it.refs == 0 && CanFree(t, a) {
      ItemFacts(s, a);
      HeldParts(s, a, it);
      FreeItemView(t, a);
    }
  }

  lemma HeldParts(s: State, a: Addr, it: Cell)
    requires Heap(s, {}) && IsItem(s, a) && it.Item? && it == s.cells[a].(refs := it.refs) && !Reserved(s, a)
    ensures ItemsOk(SetCell(s, a, it)) && PartsOk(SetCell(s, a, it), {})
  {
    hide ItemsOk, RefsOk, RescueOk, ChainOk;
    ReviseChainOf(s, a, {});
    ReviseItemsOk(s, SetCell(s, a, it), a, it);
    ReviseChain(s, SetCell(s, a, it), a, it, {});
    ChainParts(SetCell(s, a, it));
  }

  lemma GrowView(cf: Config, s: State, c: nat, memory: bool)
    requires Inv(cf, s) && 1 <= c < |s.pages|
    ensures View(NewSlab(cf, s, c, memory)) == View(s)
  {
    hide PagesOk, CellsOk, FreeOk, MoverOk, CountsOk, MemoryOk, Heap, NewSlab, View, KeepsContent;
    NewSlabHeap(cf, s, c, memory);
    InUseContent(s, NewSlab(cf, s, c, memory));
    ContentView(s, NewSlab(cf, s, c, memory));
  }

  /**
    What a step means to clients: a link shows the uploaded item under its key, an
    unlink removes the key, and so does the mover with an item it gives up; nothing
    else is visible.
   */
  function Means(s: State, a: Action): map<Key, (nat, nat, string)> {
    if a.LinkItem? && IsItem(s, a.a) then
      View(s)[s.cells[a.a].data.key := (s.cells[a.a].data.flags, s.cells[a.a].data.exptime, ValueAt(s.cells, a.a))]
    else if a.UnlinkItem? && IsItem(s, a.a) then View(s) - {s.cells[a.a].data.key}
    else if a.CompleteRescue? && RescueReady(s) && s.mover.rescue.to.None? then
      View(s) - {s.cells[s.mover.rescue.it].data.key}
    else View(s)
  }

  lemma WorkerView(cf: Config, s: State, a: Action)
    requires Inv(cf, s) && Enabled(cf, s, a) && !MoverStep(a)
    ensures View(Apply(cf, s, a)) == Means(s, a)
  {
    hide Base, Heap, View, KeepsContent, NewSlab, Pop, Link, Detach, FreeIfLast, Unhold, ValueAt;
    match a
    case Grow(c, memory) => GrowView(cf, s, c, memory);
    case Alloc(c, size) =>
      AllocContent(cf, s, c, size);
      ContentView(s, Pop(s, c, size));
    case Fill(_, _, _) =>
      UploadContent(cf, s, a);
      ContentView(s, Apply(cf, s, a));
    case Attach(_, _, _) =>
      UploadContent(cf, s, a);
      ContentView(s, Apply(cf, s, a));
    case Write(_, _) =>
      UploadContent(cf, s, a);
      ContentView(s, Apply(cf, s, a));
    case LinkItem(x) => LinkView(s, x);
    case UnlinkItem(x) => UnlinkView(cf, s, x);
    case Get(key) =>
      HoldContent(s, s.table[key], s.cells[s.table[key]].refs + 1);
      ContentView(s, Hold(s, s.table[key]));
    case Remove(x) => RemoveView(cf, s, x);
    case _ =>
  }

  /**
    In every run the contents of the cache change only by what workers link and
    unlink, and by items the mover gives up.
   */
  lemma RunContents(cf: Config, states: seq<State>, actions: seq<Action>, k: nat)
    requires IsRun(cf, states, actions) && k < |actions|
    ensures View(states[k + 1]) == Means(states[k], actions[k])
  {
    hide Init, Inv, View, Apply, Enabled, Means;
    RunStep(cf, states, actions, k);
    StepMeans(cf, states[k], actions[k]);
  }

  lemma StepMeans(cf: Config, s: State, a: Action)
    requires Inv(cf, s) && Enabled(cf, s, a)
    ensures View(Apply(cf, s, a)) == Means(s, a)
  {
    hide Inv, View, Apply, RescueReady;
    if MoverStep(a) {
      MoverStepView(cf, s, a);
    } else {
      WorkerView(cf, s, a);
    }
  }

  /** In every reachable state of a move exactly one kind of step of the mover is possible. */
  lemma MoverNeverStuck(cf: Config, states: seq<State>, actions: seq<Action>, k: nat, locked: bool, expired: bool)
    requires IsRun(cf, states, actions) && k < |states| && states[k].mover.Moving?
    ensures var s := states[k];
      && (s.mover.done ==> s.mover.rescue.NoRescue?)
      && (Enabled(cf, s, FinishMove) <==> s.mover.done)
      && (Enabled(cf, s, CompleteRescue) <==> s.mover.rescue.Rescue?)
      && (Enabled(cf, s, ExamineChunk(locked, expired)) <==> !s.mover.done && s.mover.rescue.NoRescue?)
  {
    hide IsRun, Inv, Enabled;
    RunInv(cf, states, actions, k);
    NeverStuck(cf, states[k], locked, expired);
  }

  lemma NeverStuck(cf: Config, s: State, locked: bool, expired: bool)
    requires Inv(cf, s) && s.mover.Moving?
    ensures s.mover.done ==> s.mover.rescue.NoRescue?
    ensures Enabled(cf, s, FinishMove) <==> s.mover.done
    ensures Enabled(cf, s, CompleteRescue) <==> s.mover.rescue.Rescue?
    ensures Enabled(cf, s, ExamineChunk(locked, expired)) <==> !s.mover.done && s.mover.rescue.NoRescue?
  {
    hide PagesOk, CellsOk, FreeOk, CountsOk, MemoryOk, Heap;
    if !s.mover.done {
      if s.mover.rescue.Rescue? {
        RescueFacts(cf, s);
      } else {
        ExamineReady(cf, s);
      }
    }
  }

  /**
    In every run: free chunks, chunks handed out and cleared chunks make up the
    class, and requested is the sum of what was asked for.
   */
  lemma RunBalance(cf: Config, states: seq<State>, actions: seq<Action>, k: nat, c: nat)
    requires IsRun(cf, states, actions) && k < |states| && 1 <= c < |cf.perslab|
    ensures Balanced(cf, states[k], c)
  {
    hide IsRun, Inv, Balanced;
    RunInv(cf, states, actions, k);
    InvBalanced(cf, states[k], c);
  }

  /** The books of class c: its chunks, its bytes, its free list, and its pages, which are no other class's. */
  ghost predicate Balanced(cf: Config, s: State, c: nat)
    requires 1 <= c < |cf.perslab|
  {
    && |s.pages| == |s.free| == |s.requested| == |cf.perslab|
    && |s.pages[c]| * cf.perslab[c] ==
         |s.free[c]| + Tally(UsedChunks, s.cells, s.pages[c], cf.perslab[c])
         + Tally(ClearedChunks, s.cells, s.pages[c], cf.perslab[c])
    && s.requested[c] == Tally(Bytes, s.cells, s.pages[c], cf.perslab[c])
    && Distinct(s.free[c]) && (forall a :: a in s.free[c] ==> a.page in s.pages[c] && a.idx < cf.perslab[c])
    && Distinct(s.pages[c]) && forall d, p :: 0 <= d < |s.pages| && d != c && p in s.pages[c] ==> p !in s.pages[d]
  }

  lemma InvBalanced(cf: Config, s: State, c: nat)
    requires Inv(cf, s) && 1 <= c < |cf.perslab|
    ensures Balanced(cf, s, c)
  {
    hide MoverOk, CountsOk, MemoryOk, Heap, Tally, Distinct;
    ClassBalance(cf, s, c);
    assert Distinct(s.free[c]) && Distinct(s.pages[c]);
    forall a | a in s.free[c]
      ensures a.page in s.pages[c] && a.idx < cf.perslab[c]
    {
      Place(cf, s, a, c);
    }
    forall d, p | 0 <= d < |s.pages| && d != c && p in s.pages[c]
      ensures p !in s.pages[d]
    {
      assert s.owner[p] == c;
    }
  }
}
