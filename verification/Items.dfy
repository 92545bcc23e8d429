/**
  items.c: the life of an item. An item is allocated, linked into the hash table
  and one LRU queue, fetched, moved between queues, replaced, unlinked, and freed
  when the last reference to it is dropped.
 */
module ItemsTypes {
  import opened Links

  type Key = string

  const U32: int := 0x1_0000_0000

  /** rel_time_t */
  type Time = t: int | 0 <= t < U32

  datatype Lru = Hot | Warm | Cold | Temp

  /** slabs_clsid: a slab class and one of its four queues. */
  datatype Queue = Queue(cls: nat, lru: Lru)

  datatype Item = Item(key: Key, queue: Queue, size: nat, exptime: Time, time: Time,
                       linked: bool, fetched: bool, active: bool, refs: nat)

  /** held counts the references of connections and of code in progress; bumps is the queue of asynchronous bumps. */
  datatype State = State(
    items: map<Ref, Item>,
    table: map<Key, Ref>,
    order: map<Queue, seq<Ref>>,
    sizes: map<Queue, int>,
    bytes: map<Queue, int>,
    currItems: int,
    currBytes: int,
    held: multiset<Ref>,
    bumps: seq<Ref>)

  datatype Option<T> = None | Some(value: T)
}

module ItemsSteps {
  import opened ItemsTypes
  import opened Links
  import opened LruSpec

  const ITEM_UPDATE_INTERVAL: int := 60

  function QueueOf(s: State, q: Queue): seq<Ref> {
    QueueIn(s.order, q)
  }

  function QueueIn(order: map<Queue, seq<Ref>>, q: Queue): seq<Ref> {
    if q in order then order[q] else []
  }

  function Count(m: map<Queue, int>, q: Queue): int {
    if q in m then m[q] else 0
  }

  // ----- the queues -----

  /** do_item_link_q */
  function LinkQ(s: State, r: Ref): State
    requires r in s.items
  {
    var q := s.items[r].queue;
    s.(order := s.order[q := [r] + QueueOf(s, q)],
       sizes := s.sizes[q := Count(s.sizes, q) + 1],
       bytes := s.bytes[q := Count(s.bytes, q) + s.items[r].size])
  }

  /** do_item_unlink_q */
  function UnlinkQ(s: State, r: Ref): State
    requires r in s.items
  {
    var q := s.items[r].queue;
    s.(order := s.order[q := Without(QueueOf(s, q), r)],
       sizes := s.sizes[q := Count(s.sizes, q) - 1],
       bytes := s.bytes[q := Count(s.bytes, q) - s.items[r].size])
  }

  // ----- references -----

  /** refcount_incr by code that then holds the item. */
  function Incr(s: State, r: Ref): State
    requires r in s.items
  {
    s.(items := s.items[r := s.items[r].(refs := s.items[r].refs + 1)], held := s.held + multiset{r})
  }

  /** do_item_remove: the last reference frees the item. */
  function Remove(s: State, r: Ref): State
    requires r in s.items && s.items[r].refs > 0
  {
    var n := s.items[r].refs - 1;
    s.(items := if n == 0 then s.items - {r} else s.items[r := s.items[r].(refs := n)], held := s.held - multiset{r})
  }

  // ----- linking -----

  /** do_item_link */
  function Link(s: State, r: Ref, now: Time): State
    requires r in s.items
  {
    var it := s.items[r].(linked := true, time := now, refs := s.items[r].refs + 1);
    LinkQ(s.(items := s.items[r := it],
             table := s.table[it.key := r],
             currItems := s.currItems + 1,
             currBytes := s.currBytes + it.size), r)
  }

  /** do_item_unlink of a linked item, up to dropping the reference the table had. */
  function Detach(s: State, r: Ref): State
    requires r in s.items
  {
    var it := s.items[r].(linked := false);
    UnlinkQ(s.(items := s.items[r := it],
               table := s.table - {it.key},
               currItems := s.currItems - 1,
               currBytes := s.currBytes - it.size,
               held := s.held + multiset{r}), r)
  }

  /** do_item_unlink and do_item_unlink_nolock */
  function Unlink(s: State, r: Ref): State
    requires r in s.items && s.items[r].refs > 0
  {
    if s.items[r].linked then Remove(Detach(s, r), r) else s
  }

  /** Out of one queue and to the head of another, or of the same one. */
  function Requeue(s: State, r: Ref, lru: Lru): State
    requires r in s.items
  {
    var t := UnlinkQ(s, r);
    LinkQ(t.(items := t.items[r := t.items[r].(queue := t.items[r].queue.(lru := lru))]), r)
  }

  function SetTime(s: State, r: Ref, now: Time): State
    requires r in s.items
  {
    s.(items := s.items[r := s.items[r].(time := now)])
  }

  function SetActive(s: State, r: Ref, active: bool): State
    requires r in s.items
  {
    s.(items := s.items[r := s.items[r].(active := active)])
  }

  function SetFetched(s: State, r: Ref): State
    requires r in s.items
  {
    s.(items := s.items[r := s.items[r].(fetched := true)])
  }

  function SetExptime(s: State, r: Ref, exptime: Time): State
    requires r in s.items
  {
    s.(items := s.items[r := s.items[r].(exptime := exptime)])
  }

  predicate Stale(it: Item, now: Time) {
    it.time < (now - ITEM_UPDATE_INTERVAL) % U32
  }

  /** do_item_update */
  function Update(s: State, r: Ref, now: Time, segmented: bool): State
    requires r in s.items
  {
    var it := s.items[r];
    if segmented then
      if !it.linked then s
      else if it.queue.lru == Cold && it.active then Requeue(SetActive(SetTime(s, r, now), r, false), r, Warm)
      else if Stale(it, now) then SetTime(s, r, now)
      else s
    else if Stale(it, now) && it.linked then Requeue(SetTime(s, r, now), r, it.queue.lru)
    else s
  }

  /** do_item_update_nolock */
  function UpdateNolock(s: State, r: Ref, now: Time): State
    requires r in s.items
  {
    if Stale(s.items[r], now) && s.items[r].linked then SetTime(Requeue(s, r, s.items[r].queue.lru), r, now) else s
  }

  /** do_item_replace */
  function Replace(s: State, r: Ref, n: Ref, now: Time): State
    requires r in s.items && s.items[r].refs > 0 && n in s.items && n != r
  {
    Link(Unlink(s, r), n, now)
  }

  // ----- bumps -----

  /** lru_bump_async; room says whether the buffer has space for the entry. */
  function BumpAsync(s: State, r: Ref, room: bool): State
    requires r in s.items
  {
    if room then s.(items := s.items[r := s.items[r].(refs := s.items[r].refs + 1)], bumps := s.bumps + [r])
    else SetActive(s, r, false)
  }

  /** lru_maintainer_bumps for the oldest entry. */
  function Drain(s: State, now: Time, segmented: bool): State
    requires s.bumps != [] && s.bumps[0] in s.items && s.items[s.bumps[0]].refs > 0
  {
    var r := s.bumps[0];
    var t := s.(bumps := s.bumps[1..], held := s.held + multiset{r});
    var u := Update(t, r, now, segmented);
    Remove(u, r)
  }

  // ----- fetching -----

  /** The hit of a fetch on the LRU state of the item. */
  function Hit(s: State, r: Ref, now: Time, segmented: bool, room: bool): State
    requires r in s.items
  {
    var it := s.items[r];
    if !segmented then Update(SetFetched(s, r), r, now, segmented)
    else if it.active then s
    else if !it.fetched then SetFetched(s, r)
    else
      var t := SetActive(s, r, true);
      if it.queue.lru != Cold then Update(t, r, now, segmented) else BumpAsync(t, r, room)
  }

  /** do_item_get; flushed is what item_is_flushed says of the item. */
  function Get(s: State, key: Key, now: Time, flushed: bool, doUpdate: bool, segmented: bool, room: bool)
    : (State, Option<Ref>)
    requires key in s.table ==> s.table[key] in s.items && s.items[s.table[key]].refs > 0
  {
    if key !in s.table then (s, None)
    else
      var r := s.table[key];
      var t := Incr(s, r);
      if flushed || (s.items[r].exptime != 0 && s.items[r].exptime <= now) then (GiveUp(t, r), None)
      else ((if doUpdate then Hit(t, r, now, segmented, room) else t), Some(r))
  }

  /** An item found to be expired or flushed is unlinked and released. */
  function GiveUp(s: State, r: Ref): State
    requires r in s.items && s.items[r].refs > 1
  {
    Remove(Unlink(s, r), r)
  }

  // ----- pulling the tail -----

  /** What lru_pull_tail is told and what it finds out about time, limits and the item. */
  datatype Pull = Pull(now: Time, flushed: bool, segmented: bool, evict: bool, evictToFree: bool, returnItem: bool,
                       totalBytes: nat, hotPct: nat, warmPct: nat, maxAge: nat)

  function Limit(p: Pull, lru: Lru): nat {
    var hot := p.totalBytes * p.hotPct / 100;
    if lru == Hot && hot != 0 then hot else p.totalBytes * p.warmPct / 100
  }

  /** The outcome of looking at one item: whether the walk goes on, and how much it counts as removed. */
  datatype Pulled = Pulled(state: State, stop: bool, removed: nat)

  /** One round of the loop of lru_pull_tail, for an item r of queue q whose lock was free. */
  function PullOne(s: State, q: Queue, r: Ref, p: Pull): Pulled
    requires r in s.items && s.items[r].refs > 0
  {
    var it := s.items[r];
    var t := Incr(s, r);
    if (it.exptime != 0 && it.exptime < p.now) || p.flushed then Pulled(GiveUp(t, r), false, 1)
    else match q.lru
      case Temp => Pulled(Let(t, r, p), true, 0)
      case Cold =>
        if p.evict then
          if !p.evictToFree then Pulled(Let(t, r, p), true, 0)
          else Pulled(Let(Unlink(t, r), r, p), true, 1)
        else if p.returnItem then Pulled(t, true, 0)
        else if it.active && p.segmented then Pulled(Let(Requeue(SetActive(t, r, false), r, Warm), r, p), true, 1)
        else Pulled(Let(t, r, p), true, 0)
      case Hot =>
        if it.active then Pulled(Let(Requeue(SetActive(t, r, false), r, Warm), r, p), true, 1)
        else PullInactive(t, q, r, p)
      case Warm =>
        if it.active then Pulled(Remove(UpdateNolock(SetActive(t, r, false), r, p.now), r), false, 1)
        else PullInactive(t, q, r, p)
  }

  /** An item of a hot or warm queue that is not active: it cools down when its queue is too large or it is too old. */
  function PullInactive(s: State, q: Queue, r: Ref, p: Pull): Pulled
    requires r in s.items && s.items[r].refs > 0
  {
    if Count(s.bytes, q) > Limit(p, q.lru) || (p.now - s.items[r].time) % U32 > p.maxAge then
      Pulled(Let(Requeue(s, r, Cold), r, p), true, 1)
    else Pulled(Let(s, r, p), true, 0)
  }

  /** The reference of the walk is dropped, unless the caller wants the item. */
  function Let(s: State, r: Ref, p: Pull): State
    requires r in s.items && s.items[r].refs > 0
  {
    if p.returnItem then s else Remove(s, r)
  }

  // ----- one step of a run -----

  datatype Action =
    | Alloc(r: Ref, key: Key, queue: Queue, size: nat, exptime: Time)  // do_item_alloc
    | LinkItem(r: Ref, now: Time)                                       // do_item_link
    | UnlinkItem(r: Ref)                                               // do_item_unlink
    | Release(r: Ref)                                                  // do_item_remove by a holder
    | GetItem(key: Key, now: Time, flushed: bool, doUpdate: bool, segmented: bool, room: bool)
    | Touch(r: Ref, exptime: Time)                                      // the second half of do_item_touch
    | UpdateItem(r: Ref, now: Time, segmented: bool)                    // do_item_update by a holder
    | ReplaceItem(r: Ref, n: Ref, now: Time)                            // do_item_replace by a holder of both
    | PullItem(q: Queue, r: Ref, p: Pull)                              // one round of lru_pull_tail
    | DrainBump(now: Time, segmented: bool)                             // one round of lru_maintainer_bumps

  predicate Held(s: State, r: Ref) {
    r in s.items && s.items[r].refs > 0 && s.held[r] > 0
  }

  predicate Enabled(s: State, a: Action) {
    match a
    case Alloc(r, _, _, _, _) => r != 0 && r !in s.items
    case LinkItem(r, _) => Held(s, r) && !s.items[r].linked && s.items[r].key !in s.table
    case UnlinkItem(r) => r in s.items && s.items[r].refs > 0
    case Release(r) => Held(s, r)
    case GetItem(key, _, _, _, _, _) => key in s.table ==> s.table[key] in s.items && s.items[s.table[key]].refs > 0
    case Touch(r, _) => Held(s, r)
    case UpdateItem(r, _, _) => Held(s, r)
    case ReplaceItem(r, n, _) =>
      && Held(s, r) && Held(s, n) && r != n
      && s.items[r].linked && !s.items[n].linked && s.items[n].key == s.items[r].key
    case PullItem(q, r, _) => r in QueueOf(s, q) && r in s.items && s.items[r].refs > 0
    case DrainBump(_, _) => s.bumps != [] && s.bumps[0] in s.items && s.items[s.bumps[0]].refs > 0
  }

  function Apply(s: State, a: Action): State
    requires Enabled(s, a)
  {
    match a
    case Alloc(r, key, queue, size, exptime) =>
      s.(items := s.items[r := Item(key, queue, size, exptime, 0, false, false, false, 1)],
        held := s.held + multiset{r})
    case LinkItem(r, now) => Link(s, r, now)
    case UnlinkItem(r) => Unlink(s, r)
    case Release(r) => Remove(s, r)
    case GetItem(key, now, flushed, doUpdate, segmented, room) => Get(s, key, now, flushed, doUpdate, segmented, room).0
    case Touch(r, exptime) => SetExptime(s, r, exptime)
    case UpdateItem(r, now, segmented) => Update(s, r, now, segmented)
    case ReplaceItem(r, n, now) => Replace(s, r, n, now)
    case PullItem(q, r, p) => PullOne(s, q, r, p).state
    case DrainBump(now, segmented) => Drain(s, now, segmented)
  }
}
