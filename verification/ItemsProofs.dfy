/** Every operation of items.c keeps the invariant, and so does every run of them. */
module ItemsProofs {
  import opened ItemsTypes
  import opened ItemsSteps
  import opened ItemsInvariant
  import opened Links
  import opened LruSpec

  lemma RefFacts(s: State, r: Ref)
    requires Inv(s) && r in s.items
    ensures s.items[r].refs >= 1 && s.items[r].refs >= TableRefs(s.items[r]) + s.held[r]
  {
    hide TableOk, QueuesOk, CountsOk;
  }

  lemma TableFacts(s: State, r: Ref)
    requires Inv(s) && r in s.items && s.items[r].linked
    ensures s.items[r].key in s.table && s.table[s.items[r].key] == r
  {
    hide RefsOk, QueuesOk, CountsOk;
  }

  /** do_item_unlink: the holder keeps its reference, and the key is free afterwards. */
  lemma UnlinkKeeps(s: State, r: Ref)
    requires Inv(s) && r in s.items && s.items[r].refs > 0
    ensures Inv(Unlink(s, r)) && Unlink(s, r).held == s.held
    ensures s.held[r] > 0 ==>
      && r in Unlink(s, r).items
      && Unlink(s, r).items[r] == s.items[r].(linked := false, refs := s.items[r].refs - TableRefs(s.items[r]))
    ensures s.items[r].linked ==> Unlink(s, r).table == s.table - {s.items[r].key}
    ensures forall x :: x in s.items && x != r ==> x in Unlink(s, r).items && Unlink(s, r).items[x] == s.items[x]
  {
    hide Inv, Detach;
    if s.items[r].linked {
      var t := Detach(s, r);
      DetachFields(s, r);
      DetachKeeps(s, r);
      RefFacts(s, r);
      RemoveKeeps(t, r);
      assert t.held - multiset{r} == s.held;
    }
  }

  lemma DetachFields(s: State, r: Ref)
    requires r in s.items
    ensures var t := Detach(s, r);
      && t.items == s.items[r := s.items[r].(linked := false)] && t.table == s.table - {s.items[r].key}
      && t.held == s.held + multiset{r} && t.bumps == s.bumps
  {}

  // ----- moving within and between queues -----

  /** The item is taken out of the table and its queue, and told its new queue. */
  function Moved(s: State, r: Ref, lru: Lru): State
    requires r in s.items
  {
    var t := Detach(s, r);
    t.(items := t.items[r := t.items[r].(queue := t.items[r].queue.(lru := lru))])
  }

  lemma RequeueItems(s: State, r: Ref, lru: Lru)
    requires r in s.items && s.items[r].linked && s.items[r].refs >= 1 && s.items[r].key in s.table
    requires s.table[s.items[r].key] == r
    ensures var v := Link(Moved(s, r, lru), r, s.items[r].time);
      v.items[r].refs > 1 && Remove(v, r).items == Requeue(s, r, lru).items
  {
    hide Without, QueueOf, Count;
    var it, u := s.items[r], Moved(s, r, lru);
    var it' := it.(queue := it.queue.(lru := lru));
    assert u.items == s.items[r := it'.(linked := false)];
    assert Link(u, r, it.time).items == s.items[r := it'.(refs := it.refs + 1)];
    assert Requeue(s, r, lru).items == s.items[r := it'];
  }

  lemma RequeueQueues(s: State, r: Ref, lru: Lru)
    requires r in s.items
    ensures var v, w := Link(Moved(s, r, lru), r, s.items[r].time), Requeue(s, r, lru);
      && v.order == w.order && v.sizes == w.sizes && v.bytes == w.bytes && v.bumps == w.bumps
      && v.currItems == w.currItems && v.currBytes == w.currBytes
  {
    hide LinkQ, UnlinkQ;
    var it, q := s.items[r], s.items[r].queue.(lru := lru);
    var t := s.(items := s.items[r := it.(linked := false)], table := s.table - {it.key},
                currItems := s.currItems - 1, currBytes := s.currBytes - it.size, held := s.held + multiset{r});
    UnlinkSame(s, t, r);
    var u, v := UnlinkQ(s, r), UnlinkQ(t, r);
    var u' := u.(items := u.items[r := u.items[r].(queue := q)]);
    var v' := v.(items := v.items[r := v.items[r].(queue := q)]);
    var v'' := v'.(items := v'.items[r := v'.items[r].(linked := true, time := it.time, refs := v'.items[r].refs + 1)],
                   table := v'.table[it.key := r], currItems := v'.currItems + 1, currBytes := v'.currBytes + it.size);
    LinkSame(u', v'', r);
  }

  ghost predicate SameQueues(s: State, t: State) {
    t.order == s.order && t.sizes == s.sizes && t.bytes == s.bytes
  }

  lemma UnlinkSame(s: State, t: State, r: Ref)
    requires SameQueues(s, t) && r in s.items && r in t.items && t.items[r].queue == s.items[r].queue
    requires t.items[r].size == s.items[r].size
    ensures SameQueues(UnlinkQ(s, r), UnlinkQ(t, r))
    ensures UnlinkQ(t, r) == t.(order := UnlinkQ(t, r).order, sizes := UnlinkQ(t, r).sizes,
      bytes := UnlinkQ(t, r).bytes)
    ensures UnlinkQ(s, r) == s.(order := UnlinkQ(s, r).order, sizes := UnlinkQ(s, r).sizes,
      bytes := UnlinkQ(s, r).bytes)
  {
    hide Without, QueueIn, Count;
  }

  lemma LinkSame(s: State, t: State, r: Ref)
    requires SameQueues(s, t) && r in s.items && r in t.items && t.items[r].queue == s.items[r].queue
    requires t.items[r].size == s.items[r].size
    ensures SameQueues(LinkQ(s, r), LinkQ(t, r))
    ensures LinkQ(t, r) == t.(order := LinkQ(t, r).order, sizes := LinkQ(t, r).sizes, bytes := LinkQ(t, r).bytes)
    ensures LinkQ(s, r) == s.(order := LinkQ(s, r).order, sizes := LinkQ(s, r).sizes, bytes := LinkQ(s, r).bytes)
  {
    hide Without, QueueIn, Count;
  }

  /** A move is an unlink, a change of queue and a link, with the reference count back where it was. */
  lemma RequeueIs(s: State, r: Ref, lru: Lru)
    requires r in s.items && s.items[r].linked && s.items[r].refs >= 1 && s.items[r].key in s.table
    requires s.table[s.items[r].key] == r
    ensures Remove(Link(Moved(s, r, lru), r, s.items[r].time), r) == Requeue(s, r, lru)
  {
    hide Without, QueueIn, Count, Requeue;
    var v, w := Link(Moved(s, r, lru), r, s.items[r].time), Requeue(s, r, lru);
    RequeueItems(s, r, lru);
    RequeueQueues(s, r, lru);
    RequeueTable(s, r, lru);
    assert Remove(v, r) == w;
  }

  lemma RequeueTable(s: State, r: Ref, lru: Lru)
    requires r in s.items && s.items[r].key in s.table && s.table[s.items[r].key] == r
    ensures var v, w := Link(Moved(s, r, lru), r, s.items[r].time), Requeue(s, r, lru);
      v.table == w.table && v.held - multiset{r} == w.held
  {
    hide Without, QueueOf, Count;
    var key := s.items[r].key;
    assert (s.table - {key})[key := r] == s.table;
    assert s.held + multiset{r} - multiset{r} == s.held;
  }

  lemma MovedKeeps(s: State, r: Ref, lru: Lru)
    requires Inv(s) && r in s.items && s.items[r].linked
    ensures Inv(Moved(s, r, lru))
  {
    hide TableOk, QueuesOk, CountsOk, RefsOk, Detach;
    var t, u := Detach(s, r), Moved(s, r, lru);
    DetachFields(s, r);
    DetachKeeps(s, r);
    MovedRefs(t, r, u.items[r]);
    assert SameLinks(t, u);
    hide SameLinks;
    SameLinksKeeps(t, u);
  }

  lemma MovedRefs(s: State, r: Ref, it: Item)
    requires RefsOk(s) && r in s.items && it.refs == s.items[r].refs && it.linked == s.items[r].linked
    ensures RefsOk(s.(items := s.items[r := it]))
  {}

  lemma RequeueKeeps(s: State, r: Ref, lru: Lru)
    requires Inv(s) && r in s.items && s.items[r].linked
    ensures Inv(Requeue(s, r, lru))
    ensures var t := Requeue(s, r, lru);
      t.held == s.held && t.items == s.items[r := s.items[r].(queue := s.items[r].queue.(lru := lru))]
  {
    var u := Moved(s, r, lru);
    RequeueFields(s, r, lru);
    MovedFields(s, r, lru);
    hide Inv, Moved, Requeue, Link, Remove;
    RefFacts(s, r);
    TableFacts(s, r);
    RequeueIs(s, r, lru);
    MovedKeeps(s, r, lru);
    LinkKeeps(u, r, s.items[r].time);
    LinkFields(u, r, s.items[r].time);
    RemoveKeeps(Link(u, r, s.items[r].time), r);
  }

  lemma RequeueFields(s: State, r: Ref, lru: Lru)
    requires r in s.items
    ensures var t := Requeue(s, r, lru);
      t.held == s.held && t.items == s.items[r := s.items[r].(queue := s.items[r].queue.(lru := lru))]
  {}

  lemma MovedFields(s: State, r: Ref, lru: Lru)
    requires r in s.items
    ensures var u := Moved(s, r, lru);
      && r in u.items && !u.items[r].linked && u.items[r].key == s.items[r].key
      && u.table == s.table - {s.items[r].key} && u.held == s.held + multiset{r}
  {}

  lemma LinkFields(s: State, r: Ref, now: Time)
    requires r in s.items
    ensures var t := Link(s, r, now); t.held == s.held && r in t.items
  {}

  // ----- the operations -----

  lemma SetKeeps(s: State, r: Ref, now: Time, active: bool)
    requires Inv(s) && r in s.items
    ensures Inv(SetTime(s, r, now)) && Inv(SetActive(s, r, active)) && Inv(SetFetched(s, r))
  {
    hide Inv;
    AdjustKeeps(s, r, s.items[r].(time := now));
    AdjustKeeps(s, r, s.items[r].(active := active));
    AdjustKeeps(s, r, s.items[r].(fetched := true));
  }

  /** Whoever has the item still has it afterwards. */
  ghost predicate StillHeld(s: State, t: State, r: Ref) {
    && r in s.items && r in t.items && t.held == s.held && t.items[r].refs == s.items[r].refs
    && t.items[r].linked == s.items[r].linked
  }

  lemma UpdateKeeps(s: State, r: Ref, now: Time, segmented: bool)
    requires Inv(s) && r in s.items
    ensures Inv(Update(s, r, now, segmented)) && StillHeld(s, Update(s, r, now, segmented), r)
  {
    hide Inv, Requeue, Stale;
    SetKeeps(s, r, now, false);
    var t := SetTime(s, r, now);
    SetKeeps(t, r, now, false);
    if s.items[r].linked {
      RequeueKeeps(SetActive(t, r, false), r, Warm);
      RequeueKeeps(t, r, s.items[r].queue.lru);
    }
  }

  lemma UpdateNolockKeeps(s: State, r: Ref, now: Time)
    requires Inv(s) && r in s.items
    ensures Inv(UpdateNolock(s, r, now)) && StillHeld(s, UpdateNolock(s, r, now), r)
  {
    hide Inv, Requeue, Stale;
    if s.items[r].linked {
      RequeueKeeps(s, r, s.items[r].queue.lru);
      SetKeeps(Requeue(s, r, s.items[r].queue.lru), r, now, false);
    }
  }

  lemma GiveUpKeeps(s: State, r: Ref)
    requires Inv(s) && r in s.items && s.held[r] > 0 && s.items[r].refs > 1
    ensures Inv(GiveUp(s, r))
  {
    hide Inv, Unlink, Remove;
    UnlinkKeeps(s, r);
    RemoveKeeps(Unlink(s, r), r);
  }

  lemma HitKeeps(s: State, r: Ref, now: Time, segmented: bool, room: bool)
    requires Inv(s) && r in s.items
    ensures Inv(Hit(s, r, now, segmented, room))
  {
    hide Inv, Update, BumpAsync;
    SetKeeps(s, r, now, true);
    UpdateKeeps(SetFetched(s, r), r, now, segmented);
    UpdateKeeps(SetActive(s, r, true), r, now, segmented);
    BumpKeeps(SetActive(s, r, true), r, room);
  }

  lemma GetKeeps(s: State, key: Key, now: Time, flushed: bool, doUpdate: bool, segmented: bool, room: bool)
    requires Inv(s) && (key in s.table ==> s.table[key] in s.items && s.items[s.table[key]].refs > 0)
    ensures Inv(Get(s, key, now, flushed, doUpdate, segmented, room).0)
  {
    hide Inv, GiveUp, Hit;
    if key in s.table {
      var r := s.table[key];
      IncrKeeps(s, r);
      GiveUpKeeps(Incr(s, r), r);
      HitKeeps(Incr(s, r), r, now, segmented, room);
    }
  }

  lemma LetKeeps(s: State, r: Ref, p: Pull)
    requires Inv(s) && r in s.items && s.held[r] > 0
    ensures s.items[r].refs > 0 && Inv(Let(s, r, p))
  {
    hide Inv, Remove;
    RemoveKeeps(s, r);
  }

  lemma PullKeeps(s: State, q: Queue, r: Ref, p: Pull)
    requires Inv(s) && r in s.items && s.items[r].refs > 0 && s.items[r].linked
    ensures Inv(PullOne(s, q, r, p).state)
  {
    hide Inv, GiveUp, Let, Requeue, UpdateNolock, Unlink, Remove, Limit;
    var t := Incr(s, r);
    IncrKeeps(s, r);
    SetKeeps(t, r, 0, false);
    var u := SetActive(t, r, false);
    if (s.items[r].exptime != 0 && s.items[r].exptime < p.now) || p.flushed {
      GiveUpKeeps(t, r);
    } else {
      LetKeeps(t, r, p);
      RequeueKeeps(u, r, Warm);
      LetKeeps(Requeue(u, r, Warm), r, p);
      match q.lru
      case Temp =>
      case Cold =>
        UnlinkKeeps(t, r);
        LetKeeps(Unlink(t, r), r, p);
      case Hot =>
        RequeueKeeps(t, r, Cold);
        LetKeeps(Requeue(t, r, Cold), r, p);
      case Warm =>
        RequeueKeeps(t, r, Cold);
        LetKeeps(Requeue(t, r, Cold), r, p);
        UpdateNolockKeeps(u, r, p.now);
        RemoveKeeps(UpdateNolock(u, r, p.now), r);
    }
  }

  lemma DrainKeeps(s: State, now: Time, segmented: bool)
    requires Inv(s) && s.bumps != [] && s.bumps[0] in s.items && s.items[s.bumps[0]].refs > 0
    ensures Inv(Drain(s, now, segmented))
    ensures var t, r := Drain(s, now, segmented), s.bumps[0];
      && t.bumps == s.bumps[1..] && t.held == s.held
      && (if s.items[r].refs == 1 then r !in t.items else r in t.items && t.items[r].refs == s.items[r].refs - 1)
  {
    hide Inv, Update;
    var r := s.bumps[0];
    var t := s.(bumps := s.bumps[1..], held := s.held + multiset{r});
    UnbumpKeeps(s);
    UpdateKeeps(t, r, now, segmented);
    UpdateBumps(t, r, now, segmented);
    RemoveKeeps(Update(t, r, now, segmented), r);
  }

  lemma UpdateBumps(s: State, r: Ref, now: Time, segmented: bool)
    requires r in s.items
    ensures Update(s, r, now, segmented).bumps == s.bumps
  {
    hide Without, Stale;
  }

  lemma ReplaceKeeps(s: State, r: Ref, n: Ref, now: Time)
    requires Inv(s) && Enabled(s, ReplaceItem(r, n, now))
    ensures Inv(Replace(s, r, n, now))
  {
    hide Inv, Unlink, Link;
    UnlinkKeeps(s, r);
    LinkKeeps(Unlink(s, r), n, now);
  }

  lemma AllocKeeps(s: State, a: Action)
    requires Inv(s) && a.Alloc? && Enabled(s, a)
    ensures Inv(Apply(s, a))
  {
    hide TableOk, QueuesOk, CountsOk, RefsOk;
    var t := Apply(s, a);
    AllocRefs(s, a);
    assert SameLinks(s, t);
    hide SameLinks;
    SameLinksKeeps(s, t);
  }

  lemma AllocRefs(s: State, a: Action)
    requires RefsOk(s) && a.Alloc? && Enabled(s, a)
    ensures RefsOk(Apply(s, a))
  {
    assert multiset(s.bumps)[a.r] == 0 && s.held[a.r] == 0;
  }

  lemma QueueItem(s: State, q: Queue, r: Ref)
    requires Inv(s) && r in QueueOf(s, q)
    ensures r in s.items && s.items[r].linked && s.items[r].queue == q
  {
    hide TableOk, CountsOk, RefsOk, Distinct;
  }

  lemma StepKeeps(s: State, a: Action)
    requires Inv(s) && Enabled(s, a)
    ensures Inv(Apply(s, a))
  {
    hide Inv, Link, Unlink, Remove, Get, Update, Replace, PullOne, Drain;
    match a
    case Alloc(_, _, _, _, _) => AllocKeeps(s, a);
    case LinkItem(r, now) => LinkKeeps(s, r, now);
    case UnlinkItem(r) => UnlinkKeeps(s, r);
    case Release(r) => RemoveKeeps(s, r);
    case GetItem(key, now, flushed, doUpdate, segmented, room) =>
      GetKeeps(s, key, now, flushed, doUpdate, segmented, room);
    case Touch(r, exptime) => AdjustKeeps(s, r, s.items[r].(exptime := exptime));
    case UpdateItem(r, now, segmented) => UpdateKeeps(s, r, now, segmented);
    case ReplaceItem(r, n, now) => ReplaceKeeps(s, r, n, now);
    case PullItem(q, r, p) =>
      QueueItem(s, q, r);
      PullKeeps(s, q, r, p);
    case DrainBump(now, segmented) => DrainKeeps(s, now, segmented);
  }

  // ----- runs -----

  const INIT := State(map[], map[], map[], map[], map[], 0, 0, multiset{}, [])

  lemma InitInv()
    ensures Inv(INIT)
  {
    assert LinkedSet(INIT) == {};
  }

  ghost predicate IsRun(states: seq<State>, actions: seq<Action>) {
    && |states| == |actions| + 1 && states[0] == INIT
    && forall k {:trigger actions[k]} :: 0 <= k < |actions| ==>
         Enabled(states[k], actions[k]) && states[k + 1] == Apply(states[k], actions[k])
  }

  lemma {:induction false} RunInv(states: seq<State>, actions: seq<Action>, k: nat)
    requires IsRun(states, actions) && k < |states|
    ensures Inv(states[k])
  {
    hide Inv, Apply, Enabled;
    if k == 0 {
      InitInv();
    } else {
      RunInv(states, actions, k - 1);
      assert states[k - 1 + 1] == Apply(states[k - 1], actions[k - 1]);
      StepKeeps(states[k - 1], actions[k - 1]);
    }
  }

  /** The whole story of an item: flag, hash table, queue, reference count. */
  ghost predicate ItemConsistent(s: State, r: Ref) {
    && (r in s.items <==> s.held[r] > 0 || r in s.bumps || exists k :: k in s.table && s.table[k] == r)
    && (r in s.items ==>
          var it := s.items[r];
          && (it.linked <==> it.key in s.table && s.table[it.key] == r)
          && (it.linked <==> r in QueueOf(s, it.queue))
          && (forall q :: r in QueueOf(s, q) ==> q == it.queue)
          && it.refs == (if it.linked then 1 else 0) + s.held[r] + multiset(s.bumps)[r])
  }

  lemma InvConsistent(s: State, r: Ref)
    requires Inv(s)
    ensures ItemConsistent(s, r)
  {
    hide CountsOk, Distinct;
    assert r in s.bumps <==> multiset(s.bumps)[r] > 0;
    if r in s.items && s.items[r].linked {
      assert s.table[s.items[r].key] == r;
    }
  }

  /**
    In every run: an item exists exactly while something refers to it, LINKED means
    hash table means its queue, and the counters are true.
   */
  lemma RunConsistent(states: seq<State>, actions: seq<Action>, k: nat, r: Ref, q: Queue)
    requires IsRun(states, actions) && k < |states|
    ensures ItemConsistent(states[k], r)
    ensures var s := states[k];
      && Count(s.sizes, q) == |QueueOf(s, q)| && Count(s.bytes, q) == SumSeq(s.items, QueueOf(s, q))
      && s.currItems == |LinkedSet(s)| && s.currBytes == SumSet(s.items, LinkedSet(s))
  {
    hide IsRun, ItemConsistent, TableOk, QueuesOk, RefsOk, SumSeq, SumSet;
    RunInv(states, actions, k);
    InvConsistent(states[k], r);
    assert QueueCount(states[k], q);
  }

  /**
    In every run, what the operations take for granted about the items they find in
    table, queues and bump buffer is true.
   */
  lemma RunNeverDangling(states: seq<State>, actions: seq<Action>, k: nat, get: Action, q: Queue, r: Ref, p: Pull)
    requires IsRun(states, actions) && k < |states| && get.GetItem?
    ensures Enabled(states[k], get)
    ensures r in QueueOf(states[k], q) ==> Enabled(states[k], PullItem(q, r, p))
    ensures states[k].bumps != [] ==> Enabled(states[k], DrainBump(0, true))
  {
    hide IsRun, CountsOk, Distinct;
    RunInv(states, actions, k);
  }

  /** A round of lru_pull_tail that reports nothing removed has changed nothing. */
  lemma PullUnchanged(s: State, q: Queue, r: Ref, p: Pull)
    requires Inv(s) && r in s.items && s.items[r].refs > 0 && PullOne(s, q, r, p).removed == 0 && !p.returnItem
    ensures PullOne(s, q, r, p).state == s
  {
    hide Inv, Requeue, Unlink, GiveUp, UpdateNolock;
    var t := Incr(s, r);
    assert t.items[r := t.items[r].(refs := s.items[r].refs)] == s.items;
    assert s.held + multiset{r} - multiset{r} == s.held;
  }

  lemma TableKey(s: State, key: Key)
    requires Inv(s) && key in s.table
    ensures s.table[key] in s.items && s.items[s.table[key]].linked && s.items[s.table[key]].key == key
  {
    hide RefsOk, QueuesOk, CountsOk;
  }

  // ----- what one operation leaves of the other items -----

  /** Items other than r are not touched. */
  ghost predicate OthersSame(s: State, t: State, r: Ref) {
    forall x :: x in s.items && x != r ==> x in t.items && t.items[x] == s.items[x]
  }

  lemma GiveUpOthers(s: State, r: Ref)
    requires Inv(s) && r in s.items && s.items[r].refs > 1
    ensures OthersSame(s, GiveUp(s, r), r)
  {
    hide Inv, Unlink;
    UnlinkKeeps(s, r);
  }

  /** While the walk of lru_pull_tail goes on, the rest of the queue stays where it is. */
  lemma PullGoesOn(s: State, q: Queue, r: Ref, p: Pull, x: Ref)
    requires Inv(s) && r in QueueOf(s, q) && x in QueueOf(s, q) && x != r
    requires r in s.items && s.items[r].refs > 0 && !PullOne(s, q, r, p).stop
    ensures x in QueueOf(PullOne(s, q, r, p).state, q)
  {
    hide Inv, GiveUp, UpdateNolock, Requeue, Unlink, Remove, Limit, Let;
    QueueItem(s, q, r);
    QueueItem(s, q, x);
    PullKeeps(s, q, r, p);
    var t := Incr(s, r);
    IncrKeeps(s, r);
    if (s.items[r].exptime != 0 && s.items[r].exptime < p.now) || p.flushed {
      GiveUpOthers(t, r);
    } else {
      var u := SetActive(t, r, false);
      SetKeeps(t, r, 0, false);
      UpdateNolockOthers(u, r, p.now);
    }
    LinkedInQueue(PullOne(s, q, r, p).state, x);
  }

  lemma UpdateNolockOthers(s: State, r: Ref, now: Time)
    requires Inv(s) && r in s.items && s.held[r] > 0
    ensures r in UpdateNolock(s, r, now).items && UpdateNolock(s, r, now).items[r].refs > 0
    ensures OthersSame(s, Remove(UpdateNolock(s, r, now), r), r)
  {
    hide Inv, Requeue, Stale;
    RefFacts(s, r);
    UpdateNolockKeeps(s, r, now);
    RequeueFields(s, r, s.items[r].queue.lru);
  }

  lemma LinkedInQueue(s: State, x: Ref)
    requires Inv(s) && x in s.items && s.items[x].linked
    ensures x in QueueOf(s, s.items[x].queue)
  {
    hide TableOk, RefsOk, CountsOk, Distinct;
  }

  // ----- what lru_pull_tail does to the item it looks at -----

  predicate Dead(it: Item, p: Pull) {
    (it.exptime != 0 && it.exptime < p.now) || p.flushed
  }

  predicate Evicts(q: Queue, p: Pull) {
    q.lru == Cold && p.evict && p.evictToFree
  }

  /** Of a live item only its queue may change, and then it is at the head of the new one. */
  ghost predicate MovedOrKept(s: State, t: State, q: Queue, r: Ref) {
    && r in t.items && t.items[r].linked && t.table == s.table
    && var to := t.items[r].queue;
       to == q || (to.cls == q.cls && QueueOf(t, to) == [r] + QueueOf(s, to))
  }

  lemma RequeueMoves(s: State, q: Queue, r: Ref, lru: Lru)
    requires Inv(s) && r in s.items && s.items[r].linked && s.items[r].queue == q
    ensures MovedOrKept(s, Requeue(s, r, lru), q, r) && Requeue(s, r, lru).items[r].queue == q.(lru := lru)
  {
    hide Inv, Without, Count;
    RequeueFields(s, r, lru);
  }

  lemma LetMoves(s: State, t: State, q: Queue, r: Ref, p: Pull)
    requires Inv(t) && MovedOrKept(s, t, q, r) && t.held[r] > 0
    ensures t.items[r].refs > 1 && MovedOrKept(s, Let(t, r, p), q, r) && MovedOrKept(s, Remove(t, r), q, r)
    ensures Let(t, r, p).items[r].queue == t.items[r].queue == Remove(t, r).items[r].queue
  {
    RefFacts(t, r);
    hide Inv;
  }

  lemma TouchedSame(s: State, t: State, q: Queue, r: Ref)
    requires Inv(s) && r in QueueOf(s, q) && r in s.items && r in t.items && t.table == s.table && t.order == s.order
    requires t.items[r].linked == s.items[r].linked && t.items[r].queue == s.items[r].queue
    ensures MovedOrKept(s, t, q, r)
  {
    QueueItem(s, q, r);
    hide Inv;
  }

  /**
    lru_pull_tail takes an item out of the cache exactly when it is expired or
    flushed, or when the cold queue is asked to evict. Otherwise the item stays:
    an active one can only move to the warm queue, an inactive one only from hot
    or warm to cold, and a moved item is at the head of its new queue.
   */
  lemma PullEffect(s: State, q: Queue, r: Ref, p: Pull)
    requires Inv(s) && r in QueueOf(s, q) && r in s.items && s.items[r].refs > 0
    ensures var t := PullOne(s, q, r, p).state;
      if Dead(s.items[r], p) || Evicts(q, p) then
        t.table == s.table - {s.items[r].key} && (r in t.items ==> !t.items[r].linked)
      else
        && MovedOrKept(s, t, q, r)
        && (t.items[r].queue != q ==>
             t.items[r].queue.lru == (if s.items[r].active then Warm else Cold) && q.lru != Temp)
  {
    hide Inv, Unlink, Requeue, UpdateNolock, Limit, MovedOrKept, Let, Remove, GiveUp;
    QueueItem(s, q, r);
    var t := Incr(s, r);
    IncrKeeps(s, r);
    if Dead(s.items[r], p) || Evicts(q, p) {
      PullRemoves(s, q, r, p);
    } else {
      var u := SetActive(t, r, false);
      SetKeeps(t, r, 0, false);
      TouchedSame(s, t, q, r);
      LetMoves(s, t, q, r, p);
      MoveFrom(s, t, q, r, Cold, p);
      MoveFrom(s, u, q, r, Warm, p);
      WarmUpdate(s, u, q, r, p);
    }
  }

  lemma MoveFrom(s: State, t: State, q: Queue, r: Ref, lru: Lru, p: Pull)
    requires Inv(t) && r in t.items && t.items[r].linked && t.items[r].queue == q && t.held[r] > 0
    requires t.table == s.table && t.order == s.order
    ensures var v := Requeue(t, r, lru);
      && r in v.items && v.items[r].refs > 0 && MovedOrKept(s, Let(v, r, p), q, r)
      && Let(v, r, p).items[r].queue == q.(lru := lru)
  {
    hide Inv, Requeue, Let;
    RequeueKeeps(t, r, lru);
    RequeueMoves(t, q, r, lru);
    LetMoves(s, Requeue(t, r, lru), q, r, p);
  }

  lemma WarmUpdate(s: State, t: State, q: Queue, r: Ref, p: Pull)
    requires Inv(t) && r in t.items && t.items[r].linked && t.items[r].queue == q && t.held[r] > 0 && t.table == s.table
    ensures var v := UpdateNolock(t, r, p.now);
      r in v.items && v.items[r].refs > 0 && MovedOrKept(s, Remove(v, r), q, r) && Remove(v, r).items[r].queue == q
  {
    hide Inv, Requeue, Stale;
    UpdateNolockKeeps(t, r, p.now);
    RequeueFields(t, r, q.lru);
    RequeueMoves(t, q, r, q.lru);
    RefFacts(t, r);
  }

  lemma PullRemoves(s: State, q: Queue, r: Ref, p: Pull)
    requires Inv(s) && r in QueueOf(s, q) && r in s.items && s.items[r].refs > 0 && s.items[r].linked
    requires Dead(s.items[r], p) || Evicts(q, p)
    ensures var t := PullOne(s, q, r, p).state;
      t.table == s.table - {s.items[r].key} && (r in t.items ==> !t.items[r].linked)
  {
    hide Inv, Unlink, Requeue, UpdateNolock, Limit;
    IncrKeeps(s, r);
    UnlinkKeeps(Incr(s, r), r);
  }

  /** Only item r is touched, and its expiry is not. */
  ghost predicate OnlyTouches(s: State, t: State, r: Ref) {
    && OthersSame(s, t, r)
    && (r in t.items ==> r in s.items && t.items[r].exptime == s.items[r].exptime)
  }

  lemma RequeueTouches(s: State, t: State, r: Ref, lru: Lru, p: Pull)
    requires Inv(t) && OnlyTouches(s, t, r) && r in t.items && t.items[r].linked && t.held[r] > 0
    ensures var v := Requeue(t, r, lru); r in v.items && v.items[r].refs > 0 && OnlyTouches(s, Let(v, r, p), r)
  {
    hide Inv, Requeue;
    RefFacts(t, r);
    RequeueFields(t, r, lru);
  }

  lemma LetTouches(s: State, t: State, r: Ref, p: Pull)
    requires OnlyTouches(s, t, r) && r in t.items && t.items[r].refs > 0
    ensures OnlyTouches(s, Let(t, r, p), r) && OnlyTouches(s, Remove(t, r), r)
  {}

  lemma UnlinkTouches(s: State, t: State, r: Ref, p: Pull)
    requires Inv(t) && OnlyTouches(s, t, r) && r in t.items && t.held[r] > 0 && t.items[r].refs > 1
    ensures var v := Unlink(t, r);
      r in v.items && v.items[r].refs > 0 && OnlyTouches(s, Let(v, r, p), r) && OnlyTouches(s, Remove(v, r), r)
  {
    hide Inv, Unlink, Let, Remove;
    UnlinkKeeps(t, r);
    LetTouches(s, Unlink(t, r), r, p);
  }

  lemma UpdateTouches(s: State, t: State, r: Ref, now: Time)
    requires Inv(t) && OnlyTouches(s, t, r) && r in t.items && t.held[r] > 0
    ensures var v := UpdateNolock(t, r, now); r in v.items && v.items[r].refs > 0 && OnlyTouches(s, Remove(v, r), r)
  {
    hide Inv, Requeue, Stale;
    RefFacts(t, r);
    RequeueFields(t, r, t.items[r].queue.lru);
  }

  lemma GiveUpIs(s: State, r: Ref)
    requires r in s.items && s.items[r].refs > 1
    ensures r in Unlink(s, r).items && Unlink(s, r).items[r].refs > 0 && GiveUp(s, r) == Remove(Unlink(s, r), r)
  {}

  lemma HoldTouches(s: State, r: Ref)
    requires r in s.items
    ensures OnlyTouches(s, Incr(s, r), r) && OnlyTouches(s, SetActive(Incr(s, r), r, false), r)
  {}

  /** A round of lru_pull_tail touches only its item. */
  lemma PullTouches(s: State, q: Queue, r: Ref, p: Pull)
    requires Inv(s) && r in QueueOf(s, q) && r in s.items && s.items[r].refs > 0
    ensures OnlyTouches(s, PullOne(s, q, r, p).state, r)
  {
    hide Inv, Requeue, Unlink, UpdateNolock, Limit, Let, Remove, OnlyTouches, GiveUp;
    var t := Incr(s, r);
    var u := SetActive(t, r, false);
    GiveUpIs(t, r);
    HoldTouches(s, r);
    QueueItem(s, q, r);
    IncrKeeps(s, r);
    SetKeeps(t, r, 0, false);
    UnlinkTouches(s, t, r, p);
    LetTouches(s, t, r, p);
    RequeueTouches(s, t, r, Cold, p);
    RequeueTouches(s, u, r, Warm, p);
    UpdateTouches(s, u, r, p.now);
  }

  /** A round of lru_pull_tail takes no key but that of its item out of the table, and changes none. */
  lemma PullTable(s: State, q: Queue, r: Ref, p: Pull)
    requires Inv(s) && r in QueueOf(s, q) && r in s.items && s.items[r].refs > 0
    ensures var t := PullOne(s, q, r, p).state;
      t.table == if Dead(s.items[r], p) || Evicts(q, p) then s.table - {s.items[r].key} else s.table
  {
    hide Inv, PullOne, QueueOf;
    PullEffect(s, q, r, p);
  }
}
