/**
  slabs.c: slab classes made of pages, pages cut into chunks, free lists, the
  global page pool, and the page mover that empties a page which is in use.
  Items, their chunks, the hash table and the LRU are modelled as far as the
  mover touches them.
 */
module SlabsTypes {

  newtype Page = x: int | 0 <= x

  /** The place of a chunk: a page and a position in it. */
  datatype Addr = Addr(page: Page, idx: nat)

  type Key = string

  /** What a client sees of an item. */
  datatype Data = Data(key: Key, flags: nat, exptime: nat, bytes: string)

  /** The memory of one chunk. req is the size that was asked for when it was handed out. */
  datatype Cell =
    | Free     // flags are SLABBED, on the free list of its class
    | Cleared  // flags are SLABBED|FETCHED, taken off every list by the mover
    | Item(data: Data, chunked: bool, linked: bool, refs: nat, parts: seq<Addr>, req: nat)
    | Part(head: Addr, bytes: string, req: nat)

  datatype Option<T> = None | Some(value: T)

  /**
    slab_rebal between dropping and retaking the slabs lock: item it is locked, part
    is the chunk at the cursor if that is not the item itself, to is the memory to
    move to.
   */
  datatype Rescue = NoRescue | Rescue(it: Addr, part: Option<Addr>, to: Option<Addr>)

  datatype Mover = Idle | Moving(src: nat, dst: nat, page: Page, pos: nat, busy: nat, done: bool, rescue: Rescue)

  /** perslab and size are indexed by slab class; class 0 is the global page pool. */
  datatype Config = Config(perslab: seq<nat>, size: seq<nat>, pageSize: nat, limit: nat) {
    predicate Valid() {
      && |perslab| == |size| >= 1 && pageSize > 0
      && forall c :: 1 <= c < |perslab| ==> perslab[c] > 0
    }
  }

  /** The history of malloc: how many calls failed, and how many of those for a class without pages. */
  datatype Failures = Failures(all: nat, bare: nat)

  /** owner says in which class's slab_list a page is; failed is not in memory but tells what happened so far. */
  datatype State = State(
    pages: seq<seq<Page>>,
    free: seq<seq<Addr>>,
    requested: seq<int>,
    owner: map<Page, nat>,
    cells: map<Addr, Cell>,
    table: map<Key, Addr>,
    lru: set<Addr>,
    malloced: nat,
    nextPage: Page,
    mover: Mover,
    failed: Failures)
}

module SlabsSteps {
  import opened SlabsTypes
  import opened LruSpec

  function Req(c: Cell): nat {
    match c
    case Free => 0
    case Cleared => 0
    case Item(_, _, _, _, _, req) => req
    case Part(_, _, req) => req
  }

  predicate InUse(c: Cell) {
    c.Item? || c.Part?
  }

  // ----- pages -----

  function FreshCells(page: Page, n: nat): map<Addr, Cell> {
    map a: Addr | a in FreshList(page, n) :: Free
  }

  /** split_slab_page_into_freelist pushes chunk after chunk, so the last chunk comes first. */
  function FreshList(page: Page, n: nat): seq<Addr> {
    if n == 0 then [] else [Addr(page, n - 1)] + FreshList(page, n - 1)
  }

  /** A page enters class c, whole and free. */
  function AddPage(cf: Config, s: State, c: nat, page: Page): State
    requires 1 <= c < |s.pages| == |s.free| == |cf.perslab|
  {
    s.(pages := s.pages[c := s.pages[c] + [page]],
       owner := s.owner[page := c],
       cells := s.cells + FreshCells(page, cf.perslab[c]),
       free := s.free[c := FreshList(page, cf.perslab[c]) + s.free[c]])
  }

  /** The test at the top of do_slabs_newslab. */
  predicate OverLimit(cf: Config, s: State, c: nat)
    requires 1 <= c < |s.pages|
  {
    cf.limit != 0 && s.malloced + cf.pageSize > cf.limit && s.pages[c] != [] && s.pages[0] == []
  }

  /** do_slabs_newslab when malloc fails: memory_allocate counts the page although there is none. */
  function MallocFails(cf: Config, s: State, c: nat): State
    requires 1 <= c < |s.pages|
  {
    s.(malloced := s.malloced + cf.pageSize,
      failed := Failures(s.failed.all + 1, s.failed.bare + if s.pages[c] == [] then 1 else 0))
  }

  /** do_slabs_newslab; memory says whether malloc succeeds. */
  function NewSlab(cf: Config, s: State, c: nat, memory: bool): State
    requires 1 <= c < |s.pages| == |s.free| == |cf.perslab|
  {
    if OverLimit(cf, s, c) then s
    else if s.pages[0] != [] then
      var last := |s.pages[0]| - 1;
      AddPage(cf, s.(pages := s.pages[0 := s.pages[0][..last]]), c, s.pages[0][last])
    else if memory then
      AddPage(cf, s.(malloced := s.malloced + cf.pageSize, nextPage := s.nextPage + 1), c, s.nextPage)
    else MallocFails(cf, s, c)
  }

  // ----- chunks -----

  function SetCell(s: State, a: Addr, c: Cell): State {
    s.(cells := s.cells[a := c])
  }

  const RAW := Data("", 0, 0, "")

  /** do_slabs_alloc from a non-empty free list. */
  function Pop(s: State, c: nat, size: nat): State
    requires c < |s.free| == |s.requested| && s.free[c] != []
  {
    s.(cells := s.cells[s.free[c][0] := Item(RAW, false, false, 1, [], size)],
       free := s.free[c := s.free[c][1..]],
       requested := s.requested[c := s.requested[c] + size])
  }

  predicate Known(s: State, a: Addr) {
    a in s.cells && a.page in s.owner && s.owner[a.page] < |s.free| == |s.requested|
  }

  /** do_slabs_free of one chunk: onto the free list of the class its page belongs to. */
  function Push(s: State, a: Addr): State
    requires Known(s, a)
  {
    var c := s.owner[a.page];
    s.(cells := s.cells[a := Free],
       free := s.free[c := [a] + s.free[c]],
       requested := s.requested[c := s.requested[c] - Req(s.cells[a])])
  }

  function PushAll(s: State, parts: seq<Addr>): (t: State)
    requires forall a :: a in parts ==> Known(s, a)
    ensures t.mover == s.mover && t.failed == s.failed
    decreases |parts|
  {
    if parts == [] then s
    else
      assert forall a :: a in parts[1..] ==> a in parts;
      assert forall a :: Known(s, a) ==> Known(Push(s, parts[0]), a);
      PushAll(Push(s, parts[0]), parts[1..])
  }

  predicate CanFree(s: State, a: Addr) {
    Known(s, a) && s.cells[a].Item? && forall p :: p in s.cells[a].parts ==> Known(s, p)
  }

  /** item_free: the header, then the chunks chained to it. */
  function FreeItem(s: State, a: Addr): State
    requires CanFree(s, a)
  {
    assert forall p :: Known(s, p) ==> Known(Push(s, a), p);
    PushAll(Push(s, a), s.cells[a].parts)
  }

  /** A free chunk of the page being emptied is taken off its free list for good. */
  function Clear(s: State, a: Addr): State
    requires Known(s, a)
  {
    var c := s.owner[a.page];
    s.(cells := s.cells[a := Cleared], free := s.free[c := Without(s.free[c], a)])
  }

  /** slab_rebalance_alloc: tries n times to get memory outside the page, clearing what it gets inside. */
  function AllocOutside(s: State, c: nat, page: Page, size: nat, n: nat): (State, Option<Addr>)
    requires c < |s.free| == |s.requested|
    decreases n
  {
    if n == 0 || s.free[c] == [] then (s, None)
    else
      var a := s.free[c][0];
      if a.page == page then
        AllocOutside(s.(cells := s.cells[a := Cleared], free := s.free[c := s.free[c][1..]]), c, page, size, n - 1)
      else
        (Pop(s, c, size), Some(a))
  }

  // ----- items -----

  predicate IsItem(s: State, a: Addr) {
    a in s.cells && s.cells[a].Item?
  }

  /** do_item_link */
  function Link(s: State, a: Addr): State
    requires IsItem(s, a)
  {
    var it := s.cells[a];
    SetCell(s, a, it.(linked := true, refs := it.refs + 1)).(table := s.table[it.data.key := a], lru := s.lru + {a})
  }

  /** do_item_unlink up to dropping the table's reference. */
  function Detach(s: State, a: Addr): State
    requires IsItem(s, a) && s.cells[a].refs > 0
  {
    var it := s.cells[a];
    SetCell(s, a, it.(linked := false, refs := it.refs - 1)).(table := s.table - {it.data.key}, lru := s.lru - {a})
  }

  function Hold(s: State, a: Addr): State
    requires IsItem(s, a)
  {
    SetCell(s, a, s.cells[a].(refs := s.cells[a].refs + 1))
  }

  // ----- the mover -----

  /** slab_pos moves on; at the end of the page either another pass begins or the page is done. */
  function Advance(cf: Config, s: State, wasBusy: bool): State
    requires s.mover.Moving? && s.mover.src < |cf.perslab|
  {
    var m := s.mover.(busy := s.mover.busy + if wasBusy then 1 else 0);
    if m.pos + 1 < cf.perslab[m.src] then s.(mover := m.(pos := m.pos + 1))
    else if m.busy > 0 then s.(mover := m.(pos := 0, busy := 0))
    else s.(mover := m.(pos := m.pos + 1, done := true))
  }

  /** slab_rebalance_start, for a source other than the page pool. */
  function Start(s: State, src: nat, dst: nat): State {
    if !(1 <= src < |s.pages|) || dst >= |s.pages| || src == dst || |s.pages[src]| < 2 then s
    else s.(mover := Moving(src, dst, s.pages[src][0], 0, 0, false, NoRescue))
  }

  /** The item that slab_rebalance_move looks at: the chunk at the cursor, or the head of the item it is part of. */
  function Target(s: State, at: Addr): Addr
    requires at in s.cells
  {
    if s.cells[at].Part? then s.cells[at].head else at
  }

  function RescueSize(cf: Config, s: State, at: Addr): nat
    requires at in s.cells && InUse(s.cells[at]) && s.mover.Moving? && s.mover.src < |cf.size|
  {
    if s.cells[at].Part? || s.cells[at].chunked then cf.size[s.mover.src] else s.cells[at].req
  }

  predicate MoverReady(cf: Config, s: State) {
    && s.mover.Moving? && !s.mover.done && s.mover.rescue.NoRescue?
    && s.mover.src < |s.free| == |s.requested| == |cf.perslab| == |cf.size|
    && Known(s, Addr(s.mover.page, s.mover.pos))
    && (var t := Target(s, Addr(s.mover.page, s.mover.pos));
         InUse(s.cells[Addr(s.mover.page, s.mover.pos)]) ==> IsItem(s, t))
  }

  /**
    slab_rebalance_move for one chunk, as far as the slabs lock is held at a
    stretch. locked: the item lock is taken; expired: the item is expired or
    flushed.
   */
  function Examine(cf: Config, s: State, locked: bool, expired: bool): State
    requires MoverReady(cf, s)
  {
    var m := s.mover;
    var at := Addr(m.page, m.pos);
    match s.cells[at]
    case Cleared => Advance(cf, s, false)
    case Free => Advance(cf, Clear(s, at), false)
    case _ =>
      var it := Target(s, at);
      if !s.cells[it].linked || locked || s.cells[it].refs != 1 then Advance(cf, s, true)
      else
        var t := Hold(s, it);
        var (u, to) := if expired then (t, None)
          else AllocOutside(t, m.src, m.page, RescueSize(cf, s, at), cf.perslab[m.src]);
        u.(mover := m.(rescue := Rescue(it, if it == at then None else Some(at), to)))
  }

  function Repoint(cells: map<Addr, Cell>, parts: seq<Addr>, head: Addr): map<Addr, Cell>
    decreases |parts|
  {
    if parts == [] then cells
    else
      var cs := Repoint(cells, parts[1..], head);
      if parts[0] in cs && cs[parts[0]].Part? then cs[parts[0] := cs[parts[0]].(head := head)] else cs
  }

  predicate RescueReady(s: State) {
    && s.mover.Moving? && s.mover.rescue.Rescue? && s.mover.src < |s.requested| == |s.free|
    && CanFree(s, s.mover.rescue.it) && s.cells[s.mover.rescue.it].refs > 0
    && (s.mover.rescue.part.Some? ==> s.mover.rescue.part.value in s.cells && s.cells[s.mover.rescue.part.value].Part?)
    && (s.mover.rescue.to.Some? ==> s.mover.rescue.to.value in s.cells && s.mover.rescue.to.value != s.mover.rescue.it)
  }

  /** The item moves: the copy is linked in its place, its chunks point to it, and its old memory is cleared. */
  function MoveItem(s: State, it: Addr, to: Addr): State
    requires IsItem(s, it)
  {
    var item := s.cells[it];
    var cells := Repoint(s.cells[to := item.(refs := 1)], item.parts, to)[it := Cleared];
    s.(cells := cells, table := s.table[item.data.key := to], lru := s.lru - {it} + {to})
  }

  function Replaced(xs: seq<Addr>, x: Addr, y: Addr): seq<Addr> {
    seq(|xs|, i requires 0 <= i < |xs| => if xs[i] == x then y else xs[i])
  }

  /** A chunk of an item moves: its neighbours point to the copy, and its old memory is cleared. */
  function MovePart(s: State, it: Addr, part: Addr, to: Addr): State
    requires IsItem(s, it) && part in s.cells && s.cells[part].Part?
  {
    var item := s.cells[it];
    s.(cells := s.cells[to := s.cells[part]][part := Cleared][it := item.(refs := 1,
      parts := Replaced(item.parts, part, to))])
  }

  /** What the copy was charged to requested is taken back; the copy keeps the charge of the original. */
  function Uncharge(s: State, to: Addr): State
    requires to in s.cells && s.mover.Moving? && s.mover.src < |s.requested|
  {
    s.(requested := s.requested[s.mover.src := s.requested[s.mover.src] - Req(s.cells[to])])
  }

  /** The rest of slab_rebalance_move for an item that was linked and not busy. */
  function Complete(cf: Config, s: State): State
    requires RescueReady(s) && s.mover.src < |cf.perslab|
  {
    var r, t := s.mover.rescue, s.(mover := s.mover.(rescue := NoRescue));
    if r.to.None? then
      Advance(cf, DropItem(t, r.it), true)
    else
      var u := Uncharge(t, r.to.value);
      Advance(cf, if r.part.None? then MoveItem(u, r.it, r.to.value)
        else MovePart(u, r.it, r.part.value, r.to.value), false)
  }

  /** An item that cannot be saved is unlinked and freed. */
  function DropItem(s: State, a: Addr): State
    requires CanFree(s, a) && s.cells[a].refs > 0
  {
    var t := Detach(s, a);
    assert forall p :: Known(s, p) ==> Known(t, p);
    FreeItem(t, a)
  }

  /** memory_release: pool pages go back to the system while more is in use than the limit allows. */
  function Release(cf: Config, s: State): State
    requires 0 < |s.pages|
    decreases |s.pages[0]|
  {
    if s.malloced > cf.limit && s.pages[0] != [] && s.malloced >= cf.pageSize then
      var last := |s.pages[0]| - 1;
      Release(cf, s.(pages := s.pages[0 := s.pages[0][..last]],
                     owner := s.owner - {s.pages[0][last]},
                     malloced := s.malloced - cf.pageSize))
    else s
  }

  /** The victim page leaves its class. */
  function TakePage(s: State): State
    requires s.mover.Moving? && s.mover.src < |s.pages| && s.pages[s.mover.src] != []
  {
    var m := s.mover;
    s.(pages := s.pages[m.src := s.pages[m.src][1..]],
       cells := map a | a in s.cells && a.page != m.page :: s.cells[a],
       owner := s.owner - {m.page},
       mover := Idle)
  }

  /** slab_rebalance_finish */
  function Finish(cf: Config, s: State): State
    requires s.mover.Moving? && s.mover.src < |s.pages| && s.pages[s.mover.src] != []
    requires s.mover.dst < |s.pages| == |s.free| == |cf.perslab|
  {
    var m, t := s.mover, TakePage(s);
    if m.dst == 0 then
      Release(cf, t.(pages := t.pages[0 := t.pages[0] + [m.page]], owner := t.owner[m.page := 0]))
    else
      AddPage(cf, t, m.dst, m.page)
  }

  // ----- one step of a run -----

  /** A critical section of a worker thread or of the mover. */
  datatype Action =
    | Grow(c: nat, memory: bool)                          // do_slabs_newslab
    | Alloc(c: nat, size: nat)                            // do_slabs_alloc
    | Fill(a: Addr, data: Data, chunked: bool)            // the owner of an unlinked item writes to it
    | Attach(head: Addr, a: Addr, bytes: string)          // do_item_alloc_chunk, second half
    | Write(a: Addr, bytes: string)                       // the owner of an unlinked item writes to one of its chunks
    | LinkItem(a: Addr)                                   // do_item_link
    | UnlinkItem(a: Addr)                                 // do_item_unlink
    | Get(key: Key)                                       // do_item_get
    | Remove(a: Addr)                                     // do_item_remove
    | StartMove(src: nat, dst: nat)                       // slab_rebalance_start
    | ExamineChunk(locked: bool, expired: bool)           // slab_rebalance_move, up to dropping the slabs lock
    | CompleteRescue                                      // slab_rebalance_move, from there on
    | FinishMove                                          // slab_rebalance_finish

  /** The mover holds the item lock of this item, or is about to use this memory. */
  predicate Reserved(s: State, a: Addr) {
    s.mover.Moving? && s.mover.rescue.Rescue? && (s.mover.rescue.it == a || s.mover.rescue.to == Some(a))
  }

  /** An item that is being uploaded: handed out, not linked, and not the mover's. */
  predicate Uploading(s: State, a: Addr) {
    IsItem(s, a) && !s.cells[a].linked && !Reserved(s, a)
  }

  predicate Enabled(cf: Config, s: State, a: Action) {
    && cf.Valid() && |s.pages| == |s.free| == |s.requested| == |cf.perslab|
    && match a
       case Grow(c, _) => 1 <= c < |s.pages|
       case Alloc(c, size) => 1 <= c < |s.free| && s.free[c] != [] && size <= cf.size[c]
       case Fill(a, _, _) => Uploading(s, a) && s.cells[a].parts == []
       case Attach(head, a, _) =>
         && Uploading(s, head) && s.cells[head].chunked && a != head
         && Uploading(s, a) && !s.cells[a].chunked && s.cells[a].parts == []
       case Write(a, _) => a in s.cells && s.cells[a].Part? && Uploading(s, s.cells[a].head)
       case LinkItem(a) => Uploading(s, a) && s.cells[a].data.key !in s.table && (s.cells[a].chunked ==>
         s.cells[a].parts != [])
       case UnlinkItem(a) => CanFree(s, a) && s.cells[a].linked && s.cells[a].refs > 0 && !Reserved(s, a)
       case Get(key) => key in s.table && IsItem(s, s.table[key]) && !Reserved(s, s.table[key])
       case Remove(a) => CanFree(s, a) && s.cells[a].refs > (if s.cells[a].linked then 1 else 0) && !Reserved(s, a)
       case StartMove(_, _) => s.mover.Idle?
       case ExamineChunk(_, _) => MoverReady(cf, s)
       case CompleteRescue => RescueReady(s)
       case FinishMove =>
         && s.mover.Moving? && s.mover.done
         && s.mover.src < |s.pages| && s.mover.dst < |s.pages| && s.pages[s.mover.src] != []
  }

  /** A reference goes away; the last one frees the item. */
  function Unhold(s: State, a: Addr): State
    requires CanFree(s, a) && s.cells[a].refs > 0
  {
    var t := SetCell(s, a, s.cells[a].(refs := s.cells[a].refs - 1));
    FreeIfLast(t, a)
  }

  function FreeIfLast(s: State, a: Addr): State
    requires IsItem(s, a)
  {
    if s.cells[a].refs == 0 && CanFree(s, a) then FreeItem(s, a) else s
  }

  function Apply(cf: Config, s: State, a: Action): State
    requires Enabled(cf, s, a)
  {
    match a
    case Grow(c, memory) => NewSlab(cf, s, c, memory)
    case Alloc(c, size) => Pop(s, c, size)
    case Fill(a, data, chunked) => SetCell(s, a, s.cells[a].(data := data, chunked := chunked))
    case Attach(head, a, bytes) =>
      SetCell(SetCell(s, a, Part(head, bytes, s.cells[a].req)), head,
        s.cells[head].(parts := s.cells[head].parts + [a]))
    case Write(a, bytes) => SetCell(s, a, s.cells[a].(bytes := bytes))
    case LinkItem(a) => Link(s, a)
    case UnlinkItem(a) => FreeIfLast(Detach(s, a), a)
    case Get(key) => Hold(s, s.table[key])
    case Remove(a) => Unhold(s, a)
    case StartMove(src, dst) => Start(s, src, dst)
    case ExamineChunk(locked, expired) => Examine(cf, s, locked, expired)
    case CompleteRescue => Complete(cf, s)
    case FinishMove => Finish(cf, s)
  }
}
