/**
  items.c as it updates memory: flags, references, counters, queues and the loops
  over them. The pointers inside a queue are in LruQueue.
 */
module ItemsCache {
  import opened ItemsTypes
  import opened ItemsSteps
  import opened ItemsEffects
  import opened ItemsInvariant
  import opened ItemsProofs
  import opened ItemsWalk
  import opened Links
  import opened LruSpec

  class Cache {
    var items: map<Ref, Item>
    var table: map<Key, Ref>
    var order: map<Queue, seq<Ref>>
    var sizes: map<Queue, int>
    var bytes: map<Queue, int>
    var currItems: int
    var currBytes: int
    var held: multiset<Ref>
    var bumps: seq<Ref>

    ghost function View(): State
      reads this
    {
      State(items, table, order, sizes, bytes, currItems, currBytes, held, bumps)
    }

    constructor ()
      ensures View() == INIT && Inv(View())
    {
      items, table, order, sizes, bytes := map[], map[], map[], map[], map[];
      currItems, currBytes, held, bumps := 0, 0, multiset{}, [];
      new;
      InitInv();
    }

    /** do_item_remove: the last reference frees the item. */
    method ItemRemove(r: Ref)
      requires Inv(View()) && r in items && held[r] > 0
      modifies `items, `held
      ensures old(items[r].refs) > 0 && Inv(View()) && View() == Remove(old(View()), r)
      ensures r !in items <==> old(items)[r].refs == 1
    {
      hide Inv;
      RemoveKeeps(View(), r);
      ghost var t := Remove(View(), r);
      held := held - multiset{r};
      items := items[r := items[r].(refs := items[r].refs - 1)];
      if items[r].refs == 0 {
        items := items - {r};
      }
      assert View() == t;
    }

    /** refcount_incr */
    method RefcountIncr(r: Ref)
      requires Inv(View()) && r in items
      modifies `items, `held
      ensures Inv(View()) && View() == Incr(old(View()), r)
    {
      hide Inv;
      IncrKeeps(View(), r);
      held := held + multiset{r};
      items := items[r := items[r].(refs := items[r].refs + 1)];
    }

    method LinkQueue(r: Ref)
      requires r in items
      modifies `order, `sizes, `bytes
      ensures View() == LinkQ(old(View()), r)
    {
      var q := items[r].queue;
      order := order[q := [r] + QueueIn(order, q)];
      sizes := sizes[q := Count(sizes, q) + 1];
      bytes := bytes[q := Count(bytes, q) + items[r].size];
    }

    method UnlinkQueue(r: Ref)
      requires r in items
      modifies `order, `sizes, `bytes
      ensures View() == UnlinkQ(old(View()), r)
    {
      var q := items[r].queue;
      order := order[q := Without(QueueIn(order, q), r)];
      sizes := sizes[q := Count(sizes, q) - 1];
      bytes := bytes[q := Count(bytes, q) - items[r].size];
    }

    /** do_item_link */
    method ItemLink(r: Ref, now: Time)
      requires Inv(View()) && r in items && !items[r].linked && items[r].key !in table
      modifies this
      ensures Inv(View()) && View() == Link(old(View()), r, now)
      ensures Enters(old(View()), View(), r, now)
    {
      hide Inv, LinkQ, Enters;
      LinkKeeps(View(), r, now);
      LinkEffect(View(), r, now);
      currBytes, currItems := currBytes + items[r].size, currItems + 1;
      table := table[items[r].key := r];
      items := items[r := items[r].(linked := true, time := now, refs := items[r].refs + 1)];
      LinkQueue(r);
    }

    /** do_item_unlink */
    method ItemUnlink(r: Ref)
      requires Inv(View()) && r in items && items[r].refs > 0
      modifies this
      ensures Inv(View()) && View() == Unlink(old(View()), r)
      ensures Leaves(old(View()), View(), r)
    {
      hide Inv, UnlinkQ, Leaves;
      UnlinkEffect(View(), r);
      if items[r].linked {
        ghost var t := Detach(View(), r);
        DetachKeeps(View(), r);
        DetachFields(View(), r);
        currBytes, currItems := currBytes - items[r].size, currItems - 1;
        table := table - {items[r].key};
        items := items[r := items[r].(linked := false)];
        held := held + multiset{r};
        UnlinkQueue(r);
        assert View() == t;
        ItemRemove(r);
      }
    }

    /** do_item_unlink_q, a new slabs_clsid, do_item_link_q. */
    method MoveTo(r: Ref, lru: Lru)
      requires Inv(View()) && r in items && items[r].linked
      modifies this
      ensures Inv(View()) && View() == Requeue(old(View()), r, lru)
    {
      hide Inv, LinkQ, UnlinkQ;
      RequeueKeeps(View(), r, lru);
      UnlinkQueueItems(View(), r);
      UnlinkQueue(r);
      items := items[r := items[r].(queue := items[r].queue.(lru := lru))];
      LinkQueue(r);
    }

    method ClearActive(r: Ref)
      requires Inv(View()) && r in items
      modifies `items
      ensures Inv(View()) && View() == SetActive(old(View()), r, false)
    {
      hide Inv;
      SetKeeps(View(), r, 0, false);
      items := items[r := items[r].(active := false)];
    }

    /** do_item_update_nolock */
    method ItemUpdateNolock(r: Ref, now: Time)
      requires Inv(View()) && r in items
      modifies this
      ensures Inv(View()) && View() == UpdateNolock(old(View()), r, now)
    {
      hide Inv, Requeue;
      UpdateNolockKeeps(View(), r, now);
      if Stale(items[r], now) && items[r].linked {
        RequeueFields(View(), r, items[r].queue.lru);
        MoveTo(r, items[r].queue.lru);
        items := items[r := items[r].(time := now)];
      }
    }

    /** The end of lru_pull_tail: the walk drops its reference, unless the caller wants the item. */
    method LetGo(r: Ref, p: Pull)
      requires Inv(View()) && r in items && held[r] > 0
      modifies this
      ensures old(items[r].refs) > 0 && Inv(View()) && View() == Let(old(View()), r, p)
    {
      hide Inv, Remove;
      RefFacts(View(), r);
      if !p.returnItem {
        ItemRemove(r);
      }
    }

    /** One round of lru_pull_tail. */
    method PullItem(q: Queue, r: Ref, p: Pull) returns (stop: bool, removed: nat)
      requires Inv(View()) && r in QueueOf(View(), q)
      modifies this
      ensures Inv(View()) && old(r in items && items[r].refs > 0)
      ensures Pulled(View(), stop, removed) == PullOne(old(View()), q, r, p)
      ensures !old(Dead(items[r], p)) && !Evicts(q, p) ==> Pulls(old(View()), View(), q, r, p)
    {
      ghost var s := View();
      QueueItem(s, q, r);
      RefFacts(s, r);
      if !Dead(items[r], p) && !Evicts(q, p) {
        PullMoves(s, q, r, p);
      }
      hide Pulls;
      stop, removed := PullStep(q, r, p);
    }

    /** The branches of that round. */
    method PullStep(q: Queue, r: Ref, p: Pull) returns (stop: bool, removed: nat)
      requires Inv(View()) && r in QueueOf(View(), q)
      modifies this
      ensures Inv(View()) && old(r in items && items[r].refs > 0)
      ensures Pulled(View(), stop, removed) == PullOne(old(View()), q, r, p)
    {
      hide Inv, Requeue, Unlink, UpdateNolock, Limit, Let, Remove, QueueOf, Leaves, Count;
      QueueItem(View(), q, r);
      RefFacts(View(), r);
      PullFacts(View(), r, p);
      RefcountIncr(r);
      stop, removed := true, 0;
      if (items[r].exptime != 0 && items[r].exptime < p.now) || p.flushed {
        ItemUnlink(r);
        ItemRemove(r);
        return false, 1;
      }
      match q.lru {
        case Temp =>
        case Cold =>
          if p.evict {
            if p.evictToFree {
              ItemUnlink(r);
              removed := 1;
            }
          } else if p.returnItem {
            return;
          } else if items[r].active && p.segmented {
            ClearActive(r);
            MoveTo(r, Warm);
            removed := 1;
          }
        case Hot =>
          if items[r].active {
            ClearActive(r);
            MoveTo(r, Warm);
            removed := 1;
          } else if Count(bytes, q) > Limit(p, q.lru) || (p.now - items[r].time) % U32 > p.maxAge {
            MoveTo(r, Cold);
            removed := 1;
          }
        case Warm =>
          if items[r].active {
            ClearActive(r);
            ItemUpdateNolock(r, p.now);
            ItemRemove(r);
            return false, 1;
          } else if Count(bytes, q) > Limit(p, q.lru) || (p.now - items[r].time) % U32 > p.maxAge {
            MoveTo(r, Cold);
            removed := 1;
          }
      }
      LetGo(r, p);
    }

    /** lru_pull_tail. locked are the items whose lock is taken, flushed those that item_is_flushed says yes to. */
    method PullTail(q: Queue, p: Pull, locked: set<Ref>, flushed: set<Ref>) returns (removed: nat)
      requires Inv(View())
      modifies this
      ensures Inv(View()) && removed <= 5
      ensures removed == 0 && !p.returnItem ==> View() == old(View())
      ensures OnlyDeadOrEvicted(old(View()), View(), q, p, flushed)
      ensures EvictsTail(old(View()), View(), q, p, locked, flushed)
      ensures SettlesTail(old(View()), View(), q, p, locked, flushed)
      ensures ReclaimsTail(old(View()), View(), q, p, locked, flushed)
    {
      hide Inv, PullOne, OnlyDeadOrEvicted, EvictsTail, SettlesTail, ReclaimsTail, Walked, Pulls, Dead;
      NothingGone(View(), q, p, flushed);
      removed := 0;
      var tries, search := 5, LastOf(QueueIn(order, q));
      ghost var i, d := |QueueOf(View(), q)| - 1, 0;
      WalkBegins(View(), q, p, locked, flushed);
      while tries > 0 && search.Some?
        invariant Inv(View()) && removed + tries <= 5
        invariant search.Some? ==> search.value in QueueOf(View(), q)
        invariant removed == 0 && !p.returnItem ==> View() == old(View())
        invariant OnlyDeadOrEvicted(old(View()), View(), q, p, flushed)
        invariant Walked(old(View()), View(), q, p, locked, flushed, i, d, tries, search)
        decreases tries
      {
        var r := search.value;
        DistinctQueue(View(), q);
        var next := BeforeOf(QueueIn(order, q), r);
        if r in locked {
          i := WalkPasses(old(View()), View(), q, p, locked, flushed, i, d, tries, r);
        } else {
          ghost var s := View();
          var pull := p.(flushed := r in flushed);
          var stop, n := PullItem(q, r, pull);
          RefFacts(s, r);
          if n == 0 && !p.returnItem {
            PullUnchanged(s, q, r, pull);
          }
          PullCount(s, q, r, pull);
          GoneByPull(old(View()), s, q, r, p, flushed);
          i, d := WalkPulls(old(View()), s, q, p, locked, flushed, i, d, tries, r);
          removed := removed + n;
          if stop {
            return;
          }
          if next.Some? {
            PullGoesOn(s, q, r, pull, next.value);
          }
        }
        tries, search := tries - 1, next;
      }
      WalkEnds(old(View()), View(), q, p, locked, flushed, i, d, tries, search);
    }

    /** do_item_update */
    method ItemUpdate(r: Ref, now: Time, segmented: bool)
      requires Inv(View()) && r in items
      modifies this
      ensures Inv(View()) && View() == Update(old(View()), r, now, segmented)
      ensures Updated(old(View()), View(), r, now, segmented)
    {
      hide Inv, Requeue, Stale, Updated;
      UpdateKeeps(View(), r, now, segmented);
      UpdateEffect(View(), r, now, segmented);
      SetKeeps(View(), r, now, false);
      if segmented {
        if items[r].linked {
          if items[r].queue.lru == Cold && items[r].active {
            items := items[r := items[r].(time := now)];
            ClearActive(r);
            MoveTo(r, Warm);
          } else if Stale(items[r], now) {
            items := items[r := items[r].(time := now)];
          }
        }
      } else if Stale(items[r], now) && items[r].linked {
        items := items[r := items[r].(time := now)];
        MoveTo(r, items[r].queue.lru);
      }
    }

    /** lru_bump_async */
    method Bump(r: Ref, room: bool)
      requires Inv(View()) && r in items
      modifies this
      ensures Inv(View()) && View() == BumpAsync(old(View()), r, room)
    {
      hide Inv;
      BumpKeeps(View(), r, room);
      if room {
        items := items[r := items[r].(refs := items[r].refs + 1)];
        bumps := bumps + [r];
      } else {
        items := items[r := items[r].(active := false)];
      }
    }

    /** The hit markers of a fetch. */
    method ItemHit(r: Ref, now: Time, segmented: bool, room: bool)
      requires Inv(View()) && r in items
      modifies this
      ensures Inv(View()) && View() == Hit(old(View()), r, now, segmented, room)
    {
      hide Inv, Update, BumpAsync;
      HitKeeps(View(), r, now, segmented, room);
      SetKeeps(View(), r, now, true);
      if !segmented {
        items := items[r := items[r].(fetched := true)];
        ItemUpdate(r, now, segmented);
      } else if !items[r].active {
        if !items[r].fetched {
          items := items[r := items[r].(fetched := true)];
        } else {
          items := items[r := items[r].(active := true)];
          if items[r].queue.lru != Cold {
            ItemUpdate(r, now, segmented);
          } else {
            Bump(r, room);
          }
        }
      }
    }

    /** do_item_get */
    method ItemGet(key: Key, now: Time, flushed: bool, doUpdate: bool, segmented: bool, room: bool)
      returns (found: Option<Ref>)
      requires Inv(View())
      modifies this
      ensures Inv(View()) && old(key in table ==> table[key] in items && items[table[key]].refs > 0)
      ensures (View(), found) == Get(old(View()), key, now, flushed, doUpdate, segmented, room)
      ensures found.Some? <==>
        && old(key in table) && !flushed
        && old(items[table[key]].exptime == 0 || now < items[table[key]].exptime)
      ensures found.Some? ==> table == old(table) && held == old(held) + multiset{found.value}
      ensures found.None? ==> key !in table && held == old(held) && (old(key !in table) ==> View() == old(View()))
      ensures Got(old(View()), View(), found, key, now, flushed, doUpdate, segmented, room)
    {
      ghost var s := View();
      if key in table {
        TableKey(s, key);
        RefFacts(s, table[key]);
      }
      GetFinds(s, key, now, flushed, doUpdate, segmented, room);
      hide Inv, Get, HitLeaves, OtherKeysSame;
      found := Find(key, now, flushed, doUpdate, segmented, room);
    }

    /** The branches of do_item_get. */
    method Find(key: Key, now: Time, flushed: bool, doUpdate: bool, segmented: bool, room: bool)
      returns (found: Option<Ref>)
      requires Inv(View())
      modifies this
      ensures Inv(View()) && old(key in table ==> table[key] in items && items[table[key]].refs > 0)
      ensures (View(), found) == Get(old(View()), key, now, flushed, doUpdate, segmented, room)
    {
      hide Inv, Hit, Unlink, Remove, Leaves;
      if key !in table {
        return None;
      }
      var r := table[key];
      TableKey(View(), key);
      RefFacts(View(), r);
      UnlinkAfterIncr(View(), r);
      RefcountIncr(r);
      if flushed || (items[r].exptime != 0 && items[r].exptime <= now) {
        ItemUnlink(r);
        ItemRemove(r);
        return None;
      }
      if doUpdate {
        ItemHit(r, now, segmented, room);
      }
      return Some(r);
    }

    /** lru_maintainer_bumps for the oldest entry. */
    method DrainOne(now: Time, segmented: bool)
      requires Inv(View()) && bumps != []
      modifies this
      ensures old(bumps[0] in items && items[bumps[0]].refs > 0)
      ensures Inv(View()) && View() == Drain(old(View()), now, segmented)
    {
      hide Inv, Update, Updated, Remove;
      var r := bumps[0];
      DrainReady(View(), now, segmented);
      UnbumpKeeps(View());
      bumps := bumps[1..];
      held := held + multiset{r};
      UpdateFields(View(), r, now, segmented);
      ItemUpdate(r, now, segmented);
      RefFacts(View(), r);
      ItemRemove(r);
    }

    /**
      lru_maintainer_bumps: the bumps that peek_all showed are worked off and their
      references dropped; those behind them stay queued. With segments, the items hit
      while cold then head the warm queues.
     */
    method MaintainerBumps(peeked: nat, now: Time, segmented: bool)
      requires Inv(View()) && peeked <= |bumps|
      modifies this
      ensures Inv(View()) && bumps == old(bumps)[peeked..] && held == old(held)
      ensures View() == DrainAll(old(View()), peeked, now, segmented)
      ensures segmented ==> Promotes(old(View()), View(), old(bumps)[..peeked], now)
    {
      hide Inv, Drain, Promotes;
      ghost var s := View();
      for done := 0 to peeked
        invariant View() == DrainAll(s, done, now, segmented)
      {
        DrainOne(now, segmented);
      }
      if segmented {
        DrainPromotes(s, peeked, now);
      }
    }
  }

  lemma UnlinkQueueItems(s: State, r: Ref)
    requires r in s.items
    ensures UnlinkQ(s, r).items == s.items
  {}

  /** The item and its reference survive each thing lru_pull_tail may do to it before letting go. */
  lemma PullFacts(s: State, r: Ref, p: Pull)
    requires Inv(s) && r in s.items && s.items[r].linked
    ensures var t := Incr(s, r); var u := SetActive(t, r, false);
      && t.items[r].refs > 1 && r in Unlink(t, r).items && Unlink(t, r).held == t.held
      && (forall lru :: r in Requeue(t, r, lru).items && Requeue(t, r, lru).held == t.held)
      && (forall lru :: r in Requeue(u, r, lru).items && Requeue(u, r, lru).held == t.held)
      && r in UpdateNolock(u, r, p.now).items && UpdateNolock(u, r, p.now).held == t.held
  {
    hide Inv, Unlink;
    RefFacts(s, r);
    var t := Incr(s, r);
    IncrKeeps(s, r);
    UnlinkKeeps(t, r);
    SetKeeps(t, r, 0, false);
    UpdateNolockKeeps(SetActive(t, r, false), r, p.now);
    hide UpdateNolock;
    forall lru
      ensures r in Requeue(t, r, lru).items && Requeue(t, r, lru).held == t.held
      ensures r in Requeue(SetActive(t, r, false), r, lru).items
      ensures Requeue(SetActive(t, r, false), r, lru).held == t.held
    {
      RequeueFields(t, r, lru);
      RequeueFields(SetActive(t, r, false), r, lru);
    }
  }

  lemma UpdateFields(s: State, r: Ref, now: Time, segmented: bool)
    requires Inv(s) && r in s.items
    ensures var t := Update(s, r, now, segmented); r in t.items && t.held == s.held && t.bumps == s.bumps
  {
    hide Inv, Stale, Without, QueueIn, Count;
    UpdateKeeps(s, r, now, segmented);
  }
}
