/** A move of a page that nobody disturbs ends after at most two passes. */
module SlabsQuiet {
  import opened SlabsTypes
  import opened SlabsSteps
  import opened SlabsInvariant
  import opened SlabsBase
  import opened SlabsHeap
  import opened SlabsProofs
  import opened SlabsMoves
  import opened SlabsTheorems
  import opened SlabsProgress
  import opened LruSpec

  /** The item of the chunk at x is linked, and but for the mover only the table refers to it. */
  predicate Quiet(s: State, x: Addr)
    requires x in s.cells && s.mover.Moving?
  {
    var it := Target(s, x);
    && IsItem(s, it) && s.cells[it].linked
    && s.cells[it].refs == if s.mover.rescue.Rescue? && s.mover.rescue.it == it then 2 else 1
  }

  /** The first n chunks of the page being emptied are not in use, and the items of the others are left alone. */
  ghost predicate QuietFrom(s: State, n: nat) {
    && s.mover.Moving?
    && forall x :: x in s.cells && x.page == s.mover.page && InUse(s.cells[x]) ==> x.idx >= n && Quiet(s, x)
  }

  /** A step of the mover that finds no item locked. */
  predicate Undisturbed(a: Action) {
    (a.ExamineChunk? && !a.locked) || a.CompleteRescue?
  }

  // ----- the steps of the mover keep the page quiet -----

  lemma {:induction false} AllocOutsidePage(s: State, c: nat, page: Page, size: nat, n: nat, x: Addr)
    requires c < |s.free| == |s.requested| && x.page == page
    ensures var t := AllocOutside(s, c, page, size, n).0;
      x in t.cells && InUse(t.cells[x]) ==> x in s.cells && t.cells[x] == s.cells[x]
    decreases n
  {
    if n > 0 && s.free[c] != [] && s.free[c][0].page == page {
      var a := s.free[c][0];
      var t := s.(cells := s.cells[a := Cleared], free := s.free[c := s.free[c][1..]]);
      AllocOutsidePage(t, c, page, size, n - 1, x);
    }
  }

  /** A chunk of the page that is still in use was in use before, and its item is still left alone. */
  ghost predicate StaysQuiet(s: State, t: State, x: Addr) {
    && s.mover.Moving? && t.mover.Moving? && t.mover.page == s.mover.page
    && (x in t.cells && x.page == t.mover.page && InUse(t.cells[x]) ==>
          x in s.cells && InUse(s.cells[x]) && Quiet(t, x))
  }

  lemma StayQuiet(s: State, t: State, n: nat)
    requires QuietFrom(s, n) && forall x :: StaysQuiet(s, t, x)
    ensures QuietFrom(t, n)
  {
    assert StaysQuiet(s, t, Addr(s.mover.page, 0));
    forall x | x in t.cells && x.page == t.mover.page && InUse(t.cells[x])
      ensures x.idx >= n && Quiet(t, x)
    {
      assert StaysQuiet(s, t, x);
    }
  }

  lemma ClearQuiet(cf: Config, s: State, t: State, n: nat, x: Addr)
    requires QuietFrom(s, n) && Addr(s.mover.page, s.mover.pos) in s.cells && s.mover.rescue.NoRescue?
    requires !InUse(s.cells[Addr(s.mover.page, s.mover.pos)])
    requires t.cells == s.cells || t.cells == s.cells[Addr(s.mover.page, s.mover.pos) := Cleared]
    requires t.mover.Moving? && t.mover.page == s.mover.page && t.mover.rescue.NoRescue?
    ensures StaysQuiet(s, t, x)
  {}

  /** A rescue begins: of the memory in use nothing changes but the count of references to the item. */
  lemma OpenMemory(cf: Config, s: State, expired: bool, x: Addr)
    requires Inv(cf, s) && MoverReady(cf, s) && Movable(s, false)
    ensures var t, it := Examine(cf, s, false, expired), Target(s, Addr(s.mover.page, s.mover.pos));
      && t.mover.Moving? && t.mover.rescue.Rescue? && t.mover.rescue.it == it && t.mover.page == s.mover.page
      && (x in s.cells && InUse(s.cells[x]) ==> x in t.cells && t.cells[x] == Hold(s, it).cells[x])
      && (x in t.cells && x.page == s.mover.page && InUse(t.cells[x]) ==> x in s.cells && InUse(s.cells[x]))
  {
    hide Base, Heap, AllocOutside, RescueSize;
    var m, at := s.mover, Addr(s.mover.page, s.mover.pos);
    var u := Hold(s, Target(s, at));
    HoldKeeps(cf, s, Target(s, at));
    AllocOutsideKeeps(cf, u, RescueSize(cf, s, at), cf.perslab[m.src]);
    if x.page == m.page {
      AllocOutsidePage(u, m.src, m.page, RescueSize(cf, s, at), cf.perslab[m.src], x);
    }
  }

  lemma OpenQuiet(cf: Config, s: State, n: nat, expired: bool, x: Addr)
    requires Inv(cf, s) && MoverReady(cf, s) && QuietFrom(s, n) && Movable(s, false)
    ensures StaysQuiet(s, Examine(cf, s, false, expired), x)
  {
    hide Inv, Examine;
    var t := Examine(cf, s, false, expired);
    OpenMemory(cf, s, expired, x);
    if x in t.cells && x.page == s.mover.page && InUse(t.cells[x]) {
      assert Quiet(s, x);
      OpenMemory(cf, s, expired, Target(s, x));
    }
  }

  // ----- the end of a rescue -----

  lemma {:induction false} PushAllFrees(s: State, parts: seq<Addr>)
    requires forall a :: a in parts ==> Known(s, a)
    ensures forall a :: a in parts ==> a in PushAll(s, parts).cells && PushAll(s, parts).cells[a] == Free
    decreases |parts|
  {
    if parts != [] {
      var p, rest := parts[0], parts[1..];
      assert p in parts && parts == [p] + rest;
      assert forall a :: Known(s, a) ==> Known(Push(s, p), a);
      assert forall a :: a in rest ==> a in parts;
      PushAllFrees(Push(s, p), rest);
      if p !in rest {
        PushAllCells(Push(s, p), rest);
      }
    }
  }

  lemma DropFrees(s: State, a: Addr)
    requires CanFree(s, a) && s.cells[a].refs > 0 && a !in s.cells[a].parts
    ensures var t := DropItem(s, a);
      && a in t.cells && t.cells[a] == Free
      && (forall p :: p in s.cells[a].parts ==> p in t.cells && t.cells[p] == Free)
      && (forall x :: x != a && x !in s.cells[a].parts ==> (x in t.cells <==> x in s.cells))
      && (forall x :: x != a && x !in s.cells[a].parts && x in s.cells ==> t.cells[x] == s.cells[x])
  {
    var t := Detach(s, a);
    assert forall p :: Known(s, p) ==> Known(t, p);
    assert forall p :: Known(t, p) ==> Known(Push(t, a), p);
    PushAllFrees(Push(t, a), s.cells[a].parts);
    PushAllCells(Push(t, a), s.cells[a].parts);
  }

  /** A rescue is in progress, and t is the state after it, cursor and counts aside. */
  ghost predicate Ending(s: State, t: State) {
    && s.mover.Moving? && s.mover.rescue.Rescue? && HeadsOk(s, {}) && PartsOk(s, {}) && IsItem(s, s.mover.rescue.it)
    && t.mover.Moving? && t.mover.page == s.mover.page && t.mover.rescue.NoRescue?
    && (s.mover.rescue.part.None? ==> s.mover.rescue.it == Addr(s.mover.page, s.mover.pos))
    && (s.mover.rescue.part.Some? ==> s.mover.rescue.part.value == Addr(s.mover.page, s.mover.pos))
    && (s.mover.rescue.part.Some? ==> s.mover.rescue.part.value in s.cells[s.mover.rescue.it].parts)
  }

  /** The item of another chunk is not the one that is moved, unless the chunk is part of it. */
  lemma OtherItem(s: State, n: nat, x: Addr)
    requires QuietFrom(s, n) && s.mover.rescue.Rescue? && HeadsOk(s, {}) && IsItem(s, s.mover.rescue.it)
    requires x in s.cells && x.page == s.mover.page && InUse(s.cells[x])
    requires x != s.mover.rescue.it && x !in s.cells[s.mover.rescue.it].parts
    ensures var h := Target(s, x); h != s.mover.rescue.it && IsItem(s, h) && s.cells[h].linked && s.cells[h].refs == 1
  {
    assert Quiet(s, x);
  }

  lemma DroppedQuiet(s: State, t: State, n: nat, x: Addr)
    requires QuietFrom(s, n) && Ending(s, t)
    requires var it := s.mover.rescue.it;
      && it in t.cells && t.cells[it] == Free
      && (forall p :: p in s.cells[it].parts ==> p in t.cells && t.cells[p] == Free)
      && (forall y :: y != it && y !in s.cells[it].parts ==> (y in t.cells <==> y in s.cells))
      && (forall y :: y != it && y !in s.cells[it].parts && y in s.cells ==> t.cells[y] == s.cells[y])
    ensures StaysQuiet(s, t, x)
    ensures var at := Addr(s.mover.page, s.mover.pos); at in t.cells && !InUse(t.cells[at])
  {
    if x in t.cells && x.page == t.mover.page && InUse(t.cells[x]) {
      OtherItem(s, n, x);
      assert Target(s, x) !in s.cells[s.mover.rescue.it].parts;
    }
  }

  lemma MovedQuiet(s: State, t: State, n: nat, to: Addr, x: Addr)
    requires QuietFrom(s, n) && Ending(s, t) && s.mover.rescue.part.None? && to.page != s.mover.page
    requires CanMove(s, s.mover.rescue.it, to) && ItemMoved(s, t, s.mover.rescue.it, to)
    ensures StaysQuiet(s, t, x)
    ensures var at := Addr(s.mover.page, s.mover.pos); at in t.cells && !InUse(t.cells[at])
  {
    var it := s.mover.rescue.it;
    if x in t.cells && x.page == t.mover.page && InUse(t.cells[x]) && x !in s.cells[it].parts {
      OtherItem(s, n, x);
      assert Target(s, x) !in s.cells[it].parts;
    }
  }

  lemma PartMovedQuiet(s: State, t: State, n: nat, to: Addr, x: Addr)
    requires QuietFrom(s, n) && Ending(s, t) && s.mover.rescue.part.Some? && to.page != s.mover.page
    requires CanMove(s, s.mover.rescue.it, to) && IsItem(t, s.mover.rescue.it)
    requires var it, part := s.mover.rescue.it, s.mover.rescue.part.value;
      && t.cells[it].linked && t.cells[it].refs == 1
      && t.cells == s.cells[to := s.cells[part]][part := Cleared][it := t.cells[it]]
    ensures StaysQuiet(s, t, x)
    ensures var at := Addr(s.mover.page, s.mover.pos); at in t.cells && !InUse(t.cells[at])
  {
    var it, part := s.mover.rescue.it, s.mover.rescue.part.value;
    assert part in s.cells && s.cells[part].Part? && part != it;
    if x in t.cells && x.page == t.mover.page && InUse(t.cells[x]) && x != it {
      assert x != part && x != to && t.cells[x] == s.cells[x];
      assert Quiet(s, x);
      if x !in s.cells[it].parts {
        OtherItem(s, n, x);
      }
    }
  }

  lemma AdvanceCells(cf: Config, s: State, busy: bool)
    requires s.mover.Moving? && s.mover.src < |cf.perslab|
    ensures var t := Advance(cf, s, busy);
      && t.cells == s.cells && t.table == s.table && t.lru == s.lru
      && t.mover.Moving? && t.mover.page == s.mover.page && t.mover.rescue == s.mover.rescue
  {}

  lemma EndingNow(cf: Config, s: State)
    requires Inv(cf, s) && RescueReady(s)
    ensures s.mover.src < |cf.perslab| && Ending(s, Complete(cf, s))
    ensures s.mover.rescue.it !in s.cells[s.mover.rescue.it].parts
  {
    hide Base, ItemsOk, RefsOk, ChainsOk, PartsOk, HeadsOk, Complete, Visited;
    RescueFacts(cf, s);
    CompleteVisits(cf, s);
    VisitedMove(cf, s, Complete(cf, s), s.mover.rescue.to.None?);
    PartsElsewhere(s, s.mover.rescue.it);
  }

  lemma VisitedMove(cf: Config, s: State, t: State, busy: bool)
    requires Visited(cf, s, t, busy)
    ensures s.mover.Moving? && t.mover.Moving? && t.mover.page == s.mover.page && t.mover.rescue.NoRescue?
  {}

  lemma CompleteQuiet(cf: Config, s: State, n: nat, x: Addr)
    requires Inv(cf, s) && RescueReady(s) && QuietFrom(s, n)
    ensures s.mover.src < |cf.perslab| && StaysQuiet(s, Complete(cf, s), x)
    ensures var at, t := Addr(s.mover.page, s.mover.pos), Complete(cf, s); at in t.cells && !InUse(t.cells[at])
  {
    hide Inv, QuietFrom, StaysQuiet, Ending, DropItem, MoveItem, MovePart, Advance, ItemMoved;
    var r, t := s.mover.rescue, s.(mover := s.mover.(rescue := NoRescue));
    EndingNow(cf, s);
    RescueFacts(cf, s);
    if r.to.None? {
      DropFrees(t, r.it);
      DropMover(t, r.it);
      AdvanceCells(cf, DropItem(t, r.it), true);
      DroppedQuiet(s, Complete(cf, s), n, x);
    } else if r.part.None? {
      var u := Uncharge(t, r.to.value);
      MovedMemory(cf, s, u);
      MoveItemMover(u, r.it, r.to.value);
      AdvanceCells(cf, MoveItem(u, r.it, r.to.value), false);
      SameItemMoved(u, s, MoveItem(u, r.it, r.to.value), Complete(cf, s), r.it, r.to.value);
      MovedQuiet(s, Complete(cf, s), n, r.to.value, x);
    } else {
      var u := Uncharge(t, r.to.value);
      MovePartMover(u, r.it, r.part.value, r.to.value);
      MovePartCells(u, r.it, r.part.value, r.to.value);
      AdvanceCells(cf, MovePart(u, r.it, r.part.value, r.to.value), false);
      PartMovedQuiet(s, Complete(cf, s), n, r.to.value, x);
    }
  }

  lemma DropMover(s: State, a: Addr)
    requires CanFree(s, a) && s.cells[a].refs > 0
    ensures DropItem(s, a).mover == s.mover
  {
    hide FreeItem;
    var t := Detach(s, a);
    assert forall p :: Known(s, p) ==> Known(t, p);
    FreeItemMover(t, a);
  }

  lemma MovePartCells(s: State, it: Addr, part: Addr, to: Addr)
    requires IsItem(s, it) && part in s.cells && s.cells[part].Part?
    ensures var t := MovePart(s, it, part, to);
      && IsItem(t, it) && t.cells[it].linked == s.cells[it].linked && t.cells[it].refs == 1
      && t.cells == s.cells[to := s.cells[part]][part := Cleared][it := t.cells[it]]
  {}

  lemma MovedMemory(cf: Config, s: State, u: State)
    requires Inv(cf, s) && s.mover.Moving? && s.mover.rescue.Rescue? && s.mover.rescue.to.Some?
    requires u.cells == s.cells && CanMove(s, s.mover.rescue.it, s.mover.rescue.to.value)
    ensures var it, to := s.mover.rescue.it, s.mover.rescue.to.value; ItemMoved(u, MoveItem(u, it, to), it, to)
  {
    hide Base, ItemsOk, RefsOk, RescueOk, ItemMoved, MoveItem;
    PartsElsewhere(s, s.mover.rescue.it);
    PartsElsewhere(s, s.mover.rescue.to.value);
    MoveItemMoves(u, s.mover.rescue.it, s.mover.rescue.to.value);
  }

  lemma SameItemMoved(u: State, s: State, v: State, t: State, it: Addr, to: Addr)
    requires ItemMoved(u, v, it, to) && s.cells == u.cells && s.table == u.table && s.lru == u.lru
    requires t.cells == v.cells && t.table == v.table && t.lru == v.lru
    ensures ItemMoved(s, t, it, to)
  {}

  // ----- one step, and a whole move -----

  lemma QuietNext(s: State, n: nat)
    requires QuietFrom(s, n) && Addr(s.mover.page, n) in s.cells && !InUse(s.cells[Addr(s.mover.page, n)])
    ensures QuietFrom(s, n + 1)
  {
    forall x | x in s.cells && x.page == s.mover.page && InUse(s.cells[x])
      ensures x.idx >= n + 1
    {
      assert x != Addr(s.mover.page, n);
    }
  }

  lemma QuietExamine(cf: Config, s: State, expired: bool, n: nat)
    requires Inv(cf, s) && MoverReady(cf, s) && QuietFrom(s, n)
    ensures var a, t := ExamineChunk(false, expired), Examine(cf, s, false, expired);
      && QuietFrom(t, n) && (EndsVisit(s, a) && n == s.mover.pos ==> QuietFrom(t, n + 1))
      && !LeftBusy(s, a) && (!EndsVisit(s, a) ==> s.mover.pos >= n)
  {
    hide Inv, Examine, AllocOutside, Advance;
    var at, t := Addr(s.mover.page, s.mover.pos), Examine(cf, s, false, expired);
    if InUse(s.cells[at]) {
      assert Quiet(s, at) && at.idx >= n;
      forall x
        ensures StaysQuiet(s, t, x)
      {
        OpenQuiet(cf, s, n, expired, x);
      }
    } else {
      ClearedThen(cf, s, expired);
      forall x
        ensures StaysQuiet(s, t, x)
      {
        ClearQuiet(cf, s, t, n, x);
      }
    }
    hide QuietFrom, StaysQuiet;
    StayQuiet(s, t, n);
    if !InUse(s.cells[at]) && n == s.mover.pos {
      QuietNext(t, n);
    }
  }

  lemma ClearedThen(cf: Config, s: State, expired: bool)
    requires MoverReady(cf, s) && !InUse(s.cells[Addr(s.mover.page, s.mover.pos)])
    ensures var t, at := Examine(cf, s, false, expired), Addr(s.mover.page, s.mover.pos);
      && (t.cells == s.cells || t.cells == s.cells[at := Cleared]) && at in t.cells && !InUse(t.cells[at])
      && t.mover.Moving? && t.mover.page == s.mover.page && t.mover.rescue.NoRescue?
  {
    hide AllocOutside, RescueSize, Without;
  }

  lemma QuietComplete(cf: Config, s: State, n: nat)
    requires Inv(cf, s) && RescueReady(s) && QuietFrom(s, n)
    ensures s.mover.src < |cf.perslab| && s.mover.pos >= n
    ensures QuietFrom(Complete(cf, s), n) && (n == s.mover.pos ==> QuietFrom(Complete(cf, s), n + 1))
  {
    hide Inv, Complete, StaysQuiet, RescueReady;
    RescueIsThere(s);
    RescueFacts(cf, s);
    var at, t := Addr(s.mover.page, s.mover.pos), Complete(cf, s);
    CursorInUse(cf, s);
    forall x
      ensures StaysQuiet(s, t, x)
    {
      CompleteQuiet(cf, s, n, x);
    }
    StayQuiet(s, t, n);
    CompleteQuiet(cf, s, n, at);
    CompletePage(cf, s);
    hide QuietFrom;
    if n == s.mover.pos {
      QuietNext(t, n);
    }
  }

  lemma CompletePage(cf: Config, s: State)
    requires Inv(cf, s) && RescueReady(s)
    ensures s.mover.src < |cf.perslab| && Complete(cf, s).mover.Moving? && Complete(cf, s).mover.page == s.mover.page
  {
    hide Inv, Complete;
    CompleteVisits(cf, s);
  }

  lemma CursorInUse(cf: Config, s: State)
    requires Inv(cf, s) && s.mover.Moving? && s.mover.rescue.Rescue?
    ensures var at := Addr(s.mover.page, s.mover.pos); at in s.cells && InUse(s.cells[at])
  {
    hide Base, ItemsOk, RefsOk, ChainsOk, HeadsOk;
  }

  /** An undisturbed step keeps the page quiet, and a chunk left behind was in use. */
  lemma QuietStep(cf: Config, s: State, a: Action, n: nat)
    requires Inv(cf, s) && Enabled(cf, s, a) && s.mover.Moving? && Undisturbed(a) && QuietFrom(s, n)
    ensures !s.mover.done
    ensures var t := Apply(cf, s, a);
      && QuietFrom(t, n) && (EndsVisit(s, a) && n == s.mover.pos ==> QuietFrom(t, n + 1))
      && (LeftBusy(s, a) || a.CompleteRescue? || !EndsVisit(s, a) ==> s.mover.pos >= n)
  {
    hide Inv, QuietFrom, Examine, Complete, LeftBusy, Movable;
    if a.ExamineChunk? {
      QuietExamine(cf, s, a.expired, n);
    } else {
      RescueFacts(cf, s);
      QuietComplete(cf, s, n);
    }
  }

  /** Where an undisturbed move stands after v visits to a page of p chunks. */
  ghost predicate QuietAt(s: State, v: nat, p: nat) {
    if s.mover.Moving? && s.mover.done then v == p || v == 2 * p
    else
      && v < 2 * p && s.mover.Moving?
      && (if v < p then s.mover.pos == v && QuietFrom(s, v)
          else s.mover.pos == v - p && s.mover.busy == 0 && QuietFrom(s, p))
  }

  ghost predicate AllUndisturbed(actions: seq<Action>, i: nat, j: nat)
    requires j <= |actions|
  {
    forall k {:trigger actions[k]} :: i <= k < j ==> Undisturbed(actions[k])
  }

  lemma QuietAtNext(cf: Config, s: State, a: Action, v: nat, p: nat)
    requires Inv(cf, s) && Enabled(cf, s, a) && s.mover.Moving? && Undisturbed(a) && !s.mover.done
    requires s.mover.src < |cf.perslab| && cf.perslab[s.mover.src] == p && QuietAt(s, v, p)
    ensures var t, w := Apply(cf, s, a), v + if EndsVisit(s, a) then 1 else 0; SameMove(s, t) && QuietAt(t, w, p)
  {
    hide Inv, Apply, Enabled, QuietFrom, EndsVisit, LeftBusy;
    QuietStep(cf, s, a, if v < p then v else p);
    StepVisits(cf, s, a);
  }

  lemma {:induction false} QuietRun(cf: Config, states: seq<State>, actions: seq<Action>, i: nat, j: nat)
    requires IsRun(cf, states, actions) && i <= j < |states| && AllUndisturbed(actions, i, j)
    requires PassBegins(states[i]) && states[i].mover.rescue.NoRescue? && QuietFrom(states[i], 0)
    ensures states[i].mover.src < |cf.perslab| && SameMove(states[i], states[j])
    ensures QuietAt(states[j], Visits(states, actions, i, j), cf.perslab[states[i].mover.src])
    ensures j - i <= 2 * Visits(states, actions, i, j) + if states[j].mover.rescue.Rescue? then 1 else 0
    decreases j
  {
    hide Init, Inv, Apply, Enabled, QuietAt, QuietFrom, EndsVisit, LeftBusy, Visited;
    if i == j {
      RunInv(cf, states, actions, i);
      QuietStart(cf, states[i]);
    } else {
      QuietRun(cf, states, actions, i, j - 1);
      RunStep(cf, states, actions, j - 1);
      var s, a := states[j - 1], actions[j - 1];
      NotDone(cf, s, a);
      QuietAtNext(cf, s, a, Visits(states, actions, i, j - 1), cf.perslab[states[i].mover.src]);
      Alternates(cf, s, a);
    }
  }

  lemma QuietStart(cf: Config, s: State)
    requires Inv(cf, s) && PassBegins(s) && QuietFrom(s, 0)
    ensures s.mover.src < |cf.perslab| && QuietAt(s, 0, cf.perslab[s.mover.src])
  {
    hide PagesOk, CellsOk, FreeOk, CountsOk, MemoryOk, Heap, QuietFrom;
  }

  lemma NotDone(cf: Config, s: State, a: Action)
    requires Inv(cf, s) && Enabled(cf, s, a) && s.mover.Moving? && Undisturbed(a)
    ensures !s.mover.done
  {
    hide Inv;
    if a.CompleteRescue? {
      RescueFacts(cf, s);
    }
  }

  /** A step that ends no visit begins a rescue, and the next one ends it. */
  lemma Alternates(cf: Config, s: State, a: Action)
    requires Inv(cf, s) && Enabled(cf, s, a) && s.mover.Moving? && Undisturbed(a)
    ensures var t := Apply(cf, s, a);
      && t.mover.Moving?
      && if EndsVisit(s, a) then t.mover.rescue.NoRescue? else s.mover.rescue.NoRescue? && t.mover.rescue.Rescue?
  {
    hide Inv, Examine, Complete;
    if a.ExamineChunk? {
      ExamineVisits(cf, s, a.locked, a.expired);
    } else {
      CompleteVisits(cf, s);
    }
  }

  /**
    A move that is left alone ends. If at the start of a pass every chunk of the page
    is free, or belongs to a linked item that nobody holds, and from then on only the
    mover acts and finds no lock taken, then the page is done after at most two
    passes and four steps per chunk, whether items can be saved or not. Until then
    the mover has a step to take.
   */
  lemma UndisturbedMoveEnds(cf: Config, states: seq<State>, actions: seq<Action>, i: nat, j: nat)
    requires IsRun(cf, states, actions) && i <= j < |states| && AllUndisturbed(actions, i, j)
    requires PassBegins(states[i]) && states[i].mover.rescue.NoRescue? && QuietFrom(states[i], 0)
    ensures states[i].mover.src < |cf.perslab| && SameMove(states[i], states[j])
    ensures Visits(states, actions, i, j) <= 2 * cf.perslab[states[i].mover.src]
    ensures Visits(states, actions, i, j) == 2 * cf.perslab[states[i].mover.src] ==> states[j].mover.done
    ensures j - i <= 4 * cf.perslab[states[i].mover.src]
    ensures j - i == 4 * cf.perslab[states[i].mover.src] ==> states[j].mover.done
    ensures !states[j].mover.done ==>
      Enabled(cf, states[j], if states[j].mover.rescue.Rescue? then CompleteRescue else ExamineChunk(false, false))
  {
    hide Init, Inv, Apply, Enabled, QuietFrom, EndsVisit;
    QuietRun(cf, states, actions, i, j);
    MoverNeverStuck(cf, states, actions, j, false, false);
  }
}
