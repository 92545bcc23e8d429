/**
  What the operations of items.c do to one item and to the order of the queues, as
  seen from outside: which queue an item ends up in, at which end, and what it is
  marked with.
 */
module ItemsEffects {
  import opened ItemsTypes
  import opened ItemsSteps
  import opened ItemsInvariant
  import opened ItemsProofs
  import opened Links
  import opened LruSpec

  /** Item r has left its queue for the head of queue q; everything else is in its place. */
  ghost predicate MovesToHead(s: State, t: State, r: Ref, q: Queue)
    requires r in s.items
  {
    var from := s.items[r].queue;
    && (from == q ==> QueueOf(t, q) == [r] + Without(QueueOf(s, q), r))
    && (from != q ==> QueueOf(t, q) == [r] + QueueOf(s, q) && QueueOf(t, from) == Without(QueueOf(s, from), r))
    && forall o :: o != q && o != from ==> QueueOf(t, o) == QueueOf(s, o)
  }

  ghost predicate SameOrder(s: State, t: State) {
    forall q :: QueueOf(t, q) == QueueOf(s, q)
  }

  /** Of the items only r has changed, to it. */
  ghost predicate Becomes(s: State, t: State, r: Ref, it: Item) {
    t.items == s.items[r := it] && t.table == s.table && t.held == s.held && t.bumps == s.bumps
  }

  /** More than a minute has passed since the item was touched, on a clock of 32 bits. */
  predicate Untouched(it: Item, now: Time) {
    if now >= 60 then it.time + 60 < now else it.time + 60 < now + U32
  }

  lemma StaleIs(it: Item, now: Time)
    ensures Stale(it, now) <==> Untouched(it, now)
  {}

  lemma RequeueEffect(s: State, r: Ref, lru: Lru)
    requires r in s.items
    ensures var t, to := Requeue(s, r, lru), s.items[r].queue.(lru := lru);
      MovesToHead(s, t, r, to) && Becomes(s, t, r, s.items[r].(queue := to))
  {
    hide Without, Count;
  }

  // ----- do_item_link, do_item_unlink, do_item_replace -----

  /** The item is in the table under its key and at the head of its queue, with the time of the link. */
  ghost predicate Enters(s: State, t: State, r: Ref, now: Time)
    requires r in s.items
  {
    var it := s.items[r];
    && t.table == s.table[it.key := r]
    && QueueOf(t, it.queue) == [r] + QueueOf(s, it.queue)
    && (forall q :: q != it.queue ==> QueueOf(t, q) == QueueOf(s, q))
    && t.items == s.items[r := it.(linked := true, time := now, refs := it.refs + 1)]
    && t.held == s.held && t.bumps == s.bumps
  }

  lemma LinkEffect(s: State, r: Ref, now: Time)
    requires r in s.items
    ensures Enters(s, Link(s, r, now), r, now)
  {}

  /** A linked item is in the table no more and has left its queue; one that was not linked is not touched. */
  ghost predicate Leaves(s: State, t: State, r: Ref)
    requires r in s.items && s.items[r].refs > 0
  {
    var it := s.items[r];
    if !it.linked then t == s
    else
      && t.table == s.table - {it.key}
      && QueueOf(t, it.queue) == Without(QueueOf(s, it.queue), r)
      && (forall q :: q != it.queue ==> QueueOf(t, q) == QueueOf(s, q))
      && t.items == (if it.refs == 1 then s.items - {r} else s.items[r := it.(linked := false, refs := it.refs - 1)])
      && t.held == s.held && t.bumps == s.bumps
  }

  lemma DetachOrder(s: State, r: Ref)
    requires r in s.items
    ensures var t, q := Detach(s, r), s.items[r].queue;
      QueueOf(t, q) == Without(QueueOf(s, q), r) && forall o :: o != q ==> QueueOf(t, o) == QueueOf(s, o)
  {
    hide Without, Count;
  }

  lemma UnlinkEffect(s: State, r: Ref)
    requires r in s.items && s.items[r].refs > 0
    ensures Leaves(s, Unlink(s, r), r)
  {
    hide Detach, Without, QueueOf;
    if s.items[r].linked {
      DetachOrder(s, r);
      DetachFields(s, r);
      SameLists(Detach(s, r), Unlink(s, r));
      assert s.held + multiset{r} - multiset{r} == s.held;
      assert s.items[r := s.items[r].(linked := false)] - {r} == s.items - {r};
    }
  }

  /** The new item has the key and the head of its queue, the old one is out of the cache; other keys keep theirs. */
  lemma ReplaceEffect(s: State, r: Ref, n: Ref, now: Time)
    requires Inv(s) && Enabled(s, ReplaceItem(r, n, now))
    ensures var t := Replace(s, r, n, now);
      && t.table == s.table[s.items[r].key := n] && t.held == s.held
      && n in t.items && t.items[n].linked
      && QueueOf(t, s.items[n].queue) == [n] + Without(QueueOf(s, s.items[n].queue), r)
      && r in t.items && !t.items[r].linked
  {
    hide Inv, Unlink, Link, QueueOf, Without;
    var u := Unlink(s, r);
    UnlinkEffect(s, r);
    UnlinkKeeps(s, r);
    LinkEffect(u, n, now);
    assert s.table - {s.items[r].key} == u.table;
    if s.items[n].queue != s.items[r].queue {
      AbsentFrom(s, r, s.items[n].queue);
    }
  }

  lemma AbsentFrom(s: State, r: Ref, q: Queue)
    requires Inv(s) && r in s.items && s.items[r].queue != q
    ensures Without(QueueOf(s, q), r) == QueueOf(s, q)
  {
    if r in QueueOf(s, q) {
      QueueItem(s, q, r);
    }
    WithoutAbsent(QueueOf(s, q), r);
  }

  // ----- do_item_update -----

  /**
    A hit on a cold item takes effect: it goes to the head of the warm queue. Without
    segments an item that was not touched for a minute goes to the head of its own
    queue. In all other cases no queue changes.
   */
  ghost predicate Updated(s: State, t: State, r: Ref, now: Time, segmented: bool)
    requires r in s.items
  {
    var it := s.items[r];
    if segmented && it.linked && it.queue.lru == Cold && it.active then
      var warm := Queue(it.queue.cls, Warm);
      && QueueOf(t, warm) == [r] + QueueOf(s, warm)
      && QueueOf(t, it.queue) == Without(QueueOf(s, it.queue), r)
      && (forall q :: q != warm && q != it.queue ==> QueueOf(t, q) == QueueOf(s, q))
      && Becomes(s, t, r, it.(queue := warm, active := false, time := now))
    else if !segmented && it.linked && Untouched(it, now) then
      MovesToHead(s, t, r, it.queue) && Becomes(s, t, r, it.(time := now))
    else
      && SameOrder(s, t)
      && Becomes(s, t, r, if it.linked && Untouched(it, now) then it.(time := now) else it)
  }

  lemma UpdateEffect(s: State, r: Ref, now: Time, segmented: bool)
    requires r in s.items
    ensures Updated(s, Update(s, r, now, segmented), r, now, segmented)
  {
    hide Requeue, Stale, Without, Untouched;
    StaleIs(s.items[r], now);
    var t := SetTime(s, r, now);
    RequeueEffect(SetActive(t, r, false), r, Warm);
    RequeueEffect(t, r, s.items[r].queue.lru);
  }

  // ----- do_item_get -----

  /**
    The marks of a hit. The first hit makes an item FETCHED, the next one ACTIVE, and
    further ones change nothing until the mark is taken off. An item that becomes
    active in a cold queue is put on the list of bumps, or stays as it was if that is
    full; in any other queue its time is brought up to date.
   */
  ghost predicate HitMarks(s: State, t: State, r: Ref, now: Time, room: bool)
    requires r in s.items
  {
    var it := s.items[r];
    var becomesActive := it.fetched && !it.active;
    && SameOrder(s, t)
    && (!it.fetched && !it.active ==> Becomes(s, t, r, it.(fetched := true)))
    && (it.active || (becomesActive && it.queue.lru == Cold && !room) ==> Becomes(s, t, r, it))
    && (becomesActive && it.queue.lru == Cold && room ==>
          && t.items == s.items[r := it.(active := true, refs := it.refs + 1)] && t.bumps == s.bumps + [r]
          && t.table == s.table && t.held == s.held)
    && (becomesActive && it.queue.lru != Cold ==>
          Becomes(s, t, r, it.(active := true, time := if it.linked && Untouched(it, now) then now else it.time)))
  }

  /** Without segments every hit marks the item FETCHED and updates it. */
  ghost predicate HitLeaves(s: State, t: State, r: Ref, now: Time, segmented: bool, room: bool)
    requires r in s.items
  {
    if segmented then HitMarks(s, t, r, now, room) else Updated(SetFetched(s, r), t, r, now, false)
  }

  /** An item becomes active outside the cold queues. */
  lemma ActivateEffect(s: State, r: Ref, now: Time)
    requires r in s.items && s.items[r].queue.lru != Cold
    ensures var t, it := Update(SetActive(s, r, true), r, now, true), s.items[r];
      && SameOrder(s, t)
      && Becomes(s, t, r, it.(active := true, time := if it.linked && Untouched(it, now) then now else it.time))
  {
    hide Update, QueueOf, Untouched;
    var u := SetActive(s, r, true);
    UpdateEffect(u, r, now, true);
    UntouchedSame(s.items[r], u.items[r], now);
    SameLists(s, u);
  }

  lemma SameLists(s: State, t: State)
    requires t.order == s.order
    ensures SameOrder(s, t)
  {}

  lemma HitEffect(s: State, r: Ref, now: Time, segmented: bool, room: bool)
    requires r in s.items
    ensures HitLeaves(s, Hit(s, r, now, segmented, room), r, now, segmented, room)
  {
    hide Update, Updated, QueueOf, Untouched;
    if !segmented {
      UpdateEffect(SetFetched(s, r), r, now, false);
    } else {
      var it, t := s.items[r], Hit(s, r, now, segmented, room);
      assert s.items[r := it] == s.items;
      if it.fetched && !it.active && it.queue.lru != Cold {
        ActivateEffect(s, r, now);
      } else {
        SameLists(s, t);
      }
    }
  }

  lemma UntouchedSame(it: Item, jt: Item, now: Time)
    requires it.time == jt.time
    ensures Untouched(it, now) <==> Untouched(jt, now)
  {}

  /** A fetch finds the item of its key unless that is flushed or has expired; an exptime of 0 never expires. */
  predicate Findable(s: State, key: Key, now: Time, flushed: bool) {
    && key in s.table && s.table[key] in s.items
    && !flushed && (s.items[s.table[key]].exptime == 0 || now < s.items[s.table[key]].exptime)
  }

  /** Every key but this one has the item it had, and that is as it was. */
  ghost predicate OtherKeysSame(s: State, t: State, key: Key) {
    forall k :: k in s.table && k != key ==>
      k in t.table && t.table[k] == s.table[k] && s.table[k] in s.items && s.table[k] in t.items
      && t.items[s.table[k]] == s.items[s.table[k]]
  }

  /**
    do_item_get: the item is found exactly when the key is in the cache and its item
    is neither flushed nor expired. A hit gives the caller a reference and leaves its
    marks; an item that is not to be found is taken out; an absent key changes
    nothing; no other key is concerned.
   */
  ghost predicate Got(s: State, t: State, found: Option<Ref>, key: Key, now: Time, flushed: bool, doUpdate: bool,
                      segmented: bool, room: bool) {
    && (found.Some? <==> Findable(s, key, now, flushed))
    && (found.Some? ==>
          && found.value == s.table[key] && t.table == s.table && t.held == s.held + multiset{found.value}
          && (if doUpdate then HitLeaves(Incr(s, found.value), t, found.value, now, segmented, room)
              else t == Incr(s, found.value)))
    && (found.None? ==> key !in t.table && t.held == s.held)
    && (found.None? && key !in s.table ==> t == s)
    && OtherKeysSame(s, t, key)
  }

  lemma GetFinds(s: State, key: Key, now: Time, flushed: bool, doUpdate: bool, segmented: bool, room: bool)
    requires Inv(s) && (key in s.table ==> s.table[key] in s.items && s.items[s.table[key]].refs > 0)
    ensures var (t, found) := Get(s, key, now, flushed, doUpdate, segmented, room);
      Got(s, t, found, key, now, flushed, doUpdate, segmented, room)
  {
    hide Inv, GiveUp, Hit, HitLeaves, OtherKeysSame;
    if key in s.table {
      var r := s.table[key];
      var t := Incr(s, r);
      if Findable(s, key, now, flushed) {
        HitEffect(t, r, now, segmented, room);
        HitFields(t, Hit(t, r, now, segmented, room), r, now, segmented, room);
        OneKey(s, t, key);
        OneKey(s, Hit(t, r, now, segmented, room), key);
      } else {
        TableKey(s, key);
        GiveUpEffect(s, r);
        OneKey(s, GiveUp(t, r), key);
      }
    } else {
      OneKey(s, s, key);
    }
  }

  /** do_item_touch: from then on the new expiry decides whether the item is found. */
  lemma TouchDecides(s: State, r: Ref, exptime: Time, now: Time, flushed: bool)
    requires Inv(s) && r in s.items && s.items[r].linked
    ensures var t := SetExptime(s, r, exptime);
      && Inv(t) && t.items[r] == s.items[r].(exptime := exptime) && OthersSame(s, t, r)
      && (Findable(t, s.items[r].key, now, flushed) <==> !flushed && (exptime == 0 || now < exptime))
  {
    hide Inv;
    AdjustKeeps(s, r, s.items[r].(exptime := exptime));
    TableFacts(s, r);
  }

  lemma HitFields(s: State, t: State, r: Ref, now: Time, segmented: bool, room: bool)
    requires r in s.items && HitLeaves(s, t, r, now, segmented, room)
    ensures t.table == s.table && t.held == s.held && OthersSame(s, t, r)
  {
    hide QueueOf, Untouched;
  }

  lemma GiveUpEffect(s: State, r: Ref)
    requires Inv(s) && r in s.items && s.items[r].linked && s.items[r].refs > 0
    ensures var t := GiveUp(Incr(s, r), r);
      t.table == s.table - {s.items[r].key} && t.held == s.held && OthersSame(s, t, r)
  {
    hide Inv, Unlink;
    IncrKeeps(s, r);
    UnlinkKeeps(Incr(s, r), r);
    assert s.held + multiset{r} - multiset{r} == s.held;
  }

  lemma OneKey(s: State, t: State, key: Key)
    requires Inv(s) && (key in s.table ==> OthersSame(s, t, s.table[key]))
    requires key !in s.table ==> t == s
    requires forall k :: k in s.table && k != key ==> k in t.table && t.table[k] == s.table[k]
    ensures OtherKeysSame(s, t, key)
  {
    hide Inv;
    forall k | k in s.table
      ensures s.table[k] in s.items && s.items[s.table[k]].key == k
    {
      TableKey(s, k);
    }
  }

  // ----- lru_maintainer_bumps -----

  /** All of the oldest n bumps are worked off. */
  ghost function DrainAll(s: State, n: nat, now: Time, segmented: bool): (t: State)
    requires Inv(s) && n <= |s.bumps|
    ensures Inv(t) && t.bumps == s.bumps[n..] && t.held == s.held
  {
    if n == 0 then s
    else
      var t := DrainAll(s, n - 1, now, segmented);
      DrainReady(t, now, segmented);
      Drain(t, now, segmented)
  }

  lemma DrainReady(s: State, now: Time, segmented: bool)
    requires Inv(s) && s.bumps != []
    ensures s.bumps[0] in s.items && s.items[s.bumps[0]].refs > 0
    ensures var t := Drain(s, now, segmented); Inv(t) && t.bumps == s.bumps[1..] && t.held == s.held
  {
    hide Inv, Drain;
    UnbumpKeeps(s);
    RefFacts(s, s.bumps[0]);
    DrainKeeps(s, now, segmented);
  }

  /** A hit was noted on an item of this class in its cold queue. */
  predicate Bumped(s: State, r: Ref, cls: nat) {
    r in s.items && s.items[r].linked && s.items[r].active && s.items[r].queue == Queue(cls, Cold)
  }

  /** The items of rs with a hit noted in the cold queue of the class, the last one first. */
  function Promoted(s: State, rs: seq<Ref>, cls: nat): seq<Ref> {
    if rs == [] then []
    else
      var r, before := rs[|rs| - 1], Promoted(s, rs[..|rs| - 1], cls);
      if Bumped(s, r, cls) && r !in before then [r] + before else before
  }

  /** xs without the elements of ys. */
  function Less<T(==)>(xs: seq<T>, ys: seq<T>): seq<T> {
    if ys == [] then xs else Without(Less(xs, ys[1..]), ys[0])
  }

  ghost predicate QueuesPromoted(s: State, t: State, rs: seq<Ref>, cls: nat) {
    && QueueOf(t, Queue(cls, Warm)) == Promoted(s, rs, cls) + QueueOf(s, Queue(cls, Warm))
    && QueueOf(t, Queue(cls, Cold)) == Less(QueueOf(s, Queue(cls, Cold)), Promoted(s, rs, cls))
    && QueueOf(t, Queue(cls, Hot)) == QueueOf(s, Queue(cls, Hot))
    && QueueOf(t, Queue(cls, Temp)) == QueueOf(s, Queue(cls, Temp))
  }

  ghost predicate ItemPromoted(s: State, t: State, rs: seq<Ref>, now: Time, r: Ref)
    requires r in s.items
  {
    var it := s.items[r];
    && r in t.items && t.items[r].linked
    && if r in Promoted(s, rs, it.queue.cls) then
         t.items[r].queue == Queue(it.queue.cls, Warm) && !t.items[r].active && t.items[r].time == now
       else t.items[r].queue == it.queue && t.items[r].active == it.active
  }

  /**
    The noted hits of rs have taken effect: in every class the items hit while cold
    stand at the head of the warm queue, the last one first, and are gone from the
    cold queue; nothing else has moved.
   */
  ghost predicate Promotes(s: State, t: State, rs: seq<Ref>, now: Time) {
    && t.table == s.table
    && (forall cls :: QueuesPromoted(s, t, rs, cls))
    && (forall r :: r in s.items && s.items[r].linked ==> ItemPromoted(s, t, rs, now, r))
  }

  /** One noted hit with segments: the item goes to the head of the warm queue, or stays where it is. */
  lemma DrainEffect(s: State, now: Time)
    requires Inv(s) && s.bumps != [] && s.bumps[0] in s.items && s.items[s.bumps[0]].refs > 0
    ensures var t, r := Drain(s, now, true), s.bumps[0]; var it := s.items[r];
      && t.table == s.table && OthersSame(s, t, r)
      && (it.linked ==> r in t.items && t.items[r].linked)
      && if Bumped(s, r, it.queue.cls) then
           && MovesToHead(s, t, r, Queue(it.queue.cls, Warm))
           && t.items[r].queue == Queue(it.queue.cls, Warm) && !t.items[r].active && t.items[r].time == now
         else
           && SameOrder(s, t)
           && (r in t.items ==>
                 && t.items[r].queue == it.queue && t.items[r].active == it.active
                 && (t.items[r].time == it.time || t.items[r].time == now))
  {
    hide Inv, Update, QueueOf, Untouched, Without;
    var r := s.bumps[0];
    var u := s.(bumps := s.bumps[1..], held := s.held + multiset{r});
    SameLists(s, u);
    UnbumpKeeps(s);
    UpdateEffect(u, r, now, true);
    UpdateKeeps(u, r, now, true);
    RefFacts(u, r);
    SameLists(Update(u, r, now, true), Drain(s, now, true));
  }

  lemma {:induction false} PromotedOnly(s: State, rs: seq<Ref>, cls: nat, r: Ref)
    requires r in Promoted(s, rs, cls)
    ensures Bumped(s, r, cls)
  {
    var last, before := rs[|rs| - 1], Promoted(s, rs[..|rs| - 1], cls);
    if r in before {
      PromotedOnly(s, rs[..|rs| - 1], cls, r);
    }
  }

  lemma PromotedNext(s: State, rs: seq<Ref>, r: Ref, cls: nat)
    ensures var before := Promoted(s, rs, cls);
      Promoted(s, rs + [r], cls) == if Bumped(s, r, cls) && r !in before then [r] + before else before
  {
    assert (rs + [r])[..|rs|] == rs;
  }

  /** The item of the next bump has its hit still to come exactly if it was hit while cold and is not yet promoted. */
  lemma StillBumped(s: State, t: State, rs: seq<Ref>, now: Time, r: Ref, cls: nat)
    requires Inv(s) && Inv(t) && Promotes(s, t, rs, now)
    ensures Bumped(t, r, cls) <==> Bumped(s, r, cls) && r !in Promoted(s, rs, cls)
    ensures r in t.items && t.items[r].linked <==> r in s.items && s.items[r].linked
    ensures r in t.items && t.items[r].linked ==> t.items[r].queue.cls == s.items[r].queue.cls
  {
    hide Inv, QueuesPromoted, Promoted;
    if r in t.items && t.items[r].linked {
      TableFacts(t, r);
      TableKey(s, t.items[r].key);
    }
    if r in s.items && s.items[r].linked {
      assert ItemPromoted(s, t, rs, now, r);
    }
  }

  lemma PromoteQueues(s: State, t: State, rs: seq<Ref>, now: Time, cls: nat)
    requires Inv(s) && Inv(t) && Promotes(s, t, rs, now)
    requires t.bumps != [] && t.bumps[0] in t.items && t.items[t.bumps[0]].refs > 0
    ensures QueuesPromoted(s, Drain(t, now, true), rs + [t.bumps[0]], cls)
  {
    hide Inv, Drain, QueueOf, Promoted, Without;
    var r, u := t.bumps[0], Drain(t, now, true);
    DrainEffect(t, now);
    StillBumped(s, t, rs, now, r, cls);
    StillBumped(s, t, rs, now, r, t.items[r].queue.cls);
    PromotedNext(s, rs, r, cls);
    assert QueuesPromoted(s, t, rs, cls);
    if Bumped(t, r, cls) {
      assert ([r] + Promoted(s, rs, cls))[1..] == Promoted(s, rs, cls);
    }
  }

  lemma PromoteItem(s: State, t: State, rs: seq<Ref>, now: Time, x: Ref)
    requires Inv(s) && Inv(t) && Promotes(s, t, rs, now) && x in s.items && s.items[x].linked
    requires t.bumps != [] && t.bumps[0] in t.items && t.items[t.bumps[0]].refs > 0
    ensures ItemPromoted(s, Drain(t, now, true), rs + [t.bumps[0]], now, x)
  {
    hide Inv, Drain, QueueOf, Promoted, QueuesPromoted;
    var r := t.bumps[0];
    DrainEffect(t, now);
    StillBumped(s, t, rs, now, x, s.items[x].queue.cls);
    PromotedNext(s, rs, r, s.items[x].queue.cls);
    assert ItemPromoted(s, t, rs, now, x);
    if x == r && x in Promoted(s, rs, s.items[x].queue.cls) {
      PromotedOnly(s, rs, s.items[x].queue.cls, x);
    }
  }

  lemma PromoteStep(s: State, t: State, rs: seq<Ref>, now: Time)
    requires Inv(s) && Inv(t) && Promotes(s, t, rs, now)
    requires t.bumps != [] && t.bumps[0] in t.items && t.items[t.bumps[0]].refs > 0
    ensures Promotes(s, Drain(t, now, true), rs + [t.bumps[0]], now)
  {
    hide Inv, Drain, QueuesPromoted, ItemPromoted;
    DrainEffect(t, now);
    forall cls
      ensures QueuesPromoted(s, Drain(t, now, true), rs + [t.bumps[0]], cls)
    {
      PromoteQueues(s, t, rs, now, cls);
    }
    forall x | x in s.items && s.items[x].linked
      ensures ItemPromoted(s, Drain(t, now, true), rs + [t.bumps[0]], now, x)
    {
      PromoteItem(s, t, rs, now, x);
    }
  }

  /** A whole pass of lru_maintainer_bumps with segments. */
  lemma {:induction false} DrainPromotes(s: State, n: nat, now: Time)
    requires Inv(s) && n <= |s.bumps|
    ensures Promotes(s, DrainAll(s, n, now, true), s.bumps[..n], now)
  {
    hide Inv, Drain, Promotes;
    if n == 0 {
      PromoteNothing(s, now);
    } else {
      var t := DrainAll(s, n - 1, now, true);
      DrainPromotes(s, n - 1, now);
      DrainReady(t, now, true);
      PromoteStep(s, t, s.bumps[..n - 1], now);
      assert s.bumps[..n] == s.bumps[..n - 1] + [t.bumps[0]];
    }
  }

  lemma PromoteNothing(s: State, now: Time)
    ensures Promotes(s, s, [], now)
  {
    assert forall cls :: QueuesPromoted(s, s, [], cls);
  }

  // ----- lru_pull_tail -----

  /** How long ago the item was touched, on a clock of 32 bits. */
  function Age(it: Item, now: Time): Time {
    if it.time <= now then now - it.time else now + U32 - it.time
  }

  /** A hot or warm queue has more than its share of all bytes. A hot share that rounds to nothing is the warm one. */
  predicate OverShare(load: nat, lru: Lru, p: Pull) {
    var share := if lru == Hot && p.totalBytes * p.hotPct >= 100 then p.hotPct else p.warmPct;
    100 * load > p.totalBytes * share
  }

  lemma LimitIs(load: nat, lru: Lru, p: Pull)
    ensures load > Limit(p, lru) <==> OverShare(load, lru, p)
  {
    var hot, warm := p.totalBytes * p.hotPct, p.totalBytes * p.warmPct;
    assert load > hot / 100 <==> 100 * load > hot;
    assert load > warm / 100 <==> 100 * load > warm;
  }

  lemma AgeIs(it: Item, now: Time)
    ensures (now - it.time) % U32 == Age(it, now)
  {}

  predicate GoesWarm(it: Item, lru: Lru, p: Pull) {
    it.active && (lru == Hot || (lru == Cold && p.segmented && !p.evict && !p.returnItem))
  }

  predicate GoesCold(it: Item, lru: Lru, load: nat, p: Pull) {
    !it.active && (lru == Hot || lru == Warm) && (OverShare(load, lru, p) || Age(it, p.now) > p.maxAge)
  }

  /**
    What lru_pull_tail does with a live item that it need not evict. An active item of
    a hot or cold queue goes to the head of the warm queue. An active item of a warm
    queue is refreshed there. An inactive item of a hot or warm queue goes to the head
    of the cold queue if its queue has more than its share or the item is too old. Who
    is moved or refreshed is no longer active. Otherwise nothing happens.
   */
  ghost predicate Pulls(s: State, t: State, q: Queue, r: Ref, p: Pull)
    requires r in s.items
  {
    var it, load := s.items[r], SumSeq(s.items, QueueOf(s, q));
    var refs := if p.returnItem && !(it.active && q.lru == Warm) then it.refs + 1 else it.refs;
    && r in t.items && t.table == s.table
    && (GoesWarm(it, q.lru, p) ==>
          MovesToHead(s, t, r, q.(lru := Warm))
          && t.items[r] == it.(queue := q.(lru := Warm), active := false, refs := refs))
    && (GoesCold(it, q.lru, load, p) ==>
          MovesToHead(s, t, r, q.(lru := Cold)) && t.items[r] == it.(queue := q.(lru := Cold), refs := refs))
    && (it.active && q.lru == Warm ==>
          && (if Untouched(it, p.now) then MovesToHead(s, t, r, q) else SameOrder(s, t))
          && t.items[r] == it.(active := false, refs := refs, time := if Untouched(it, p.now) then p.now else it.time))
    && (!GoesWarm(it, q.lru, p) && !GoesCold(it, q.lru, load, p) && !(it.active && q.lru == Warm) ==>
          SameOrder(s, t) && t.items[r] == it.(refs := refs))
  }

  /** Moving, then letting go. */
  lemma MoveEffect(s: State, u: State, r: Ref, lru: Lru, p: Pull)
    requires Inv(u) && r in s.items && r in u.items && u.items[r].linked && u.held[r] > 0
    requires u.order == s.order && u.table == s.table && u.items[r].queue == s.items[r].queue
    ensures var v, to := Requeue(u, r, lru), s.items[r].queue.(lru := lru);
      && r in v.items && v.items[r].refs > 1
      && MovesToHead(s, Let(v, r, p), r, to) && Let(v, r, p).table == s.table && r in Let(v, r, p).items
      && Let(v, r, p).items[r] ==
           u.items[r].(queue := to, refs := if p.returnItem then u.items[r].refs else u.items[r].refs - 1)
  {
    hide Inv, Requeue, QueueOf, Without;
    RefFacts(u, r);
    RequeueEffect(u, r, lru);
    SameLists(s, u);
    SameLists(Requeue(u, r, lru), Let(Requeue(u, r, lru), r, p));
  }

  /** A warm item is refreshed, and let go. */
  lemma RefreshEffect(s: State, u: State, r: Ref, now: Time)
    requires Inv(u) && r in s.items && r in u.items && u.items[r].linked && u.held[r] > 0
    requires u.order == s.order && u.table == s.table && u.items[r].queue == s.items[r].queue
    ensures var v, it := UpdateNolock(u, r, now), u.items[r];
      && r in v.items && v.items[r].refs > 1 && r in Remove(v, r).items && Remove(v, r).table == s.table
      && (if Untouched(it, now) then MovesToHead(s, Remove(v, r), r, it.queue) else SameOrder(s, Remove(v, r)))
      && Remove(v, r).items[r] == it.(refs := it.refs - 1, time := if Untouched(it, now) then now else it.time)
  {
    hide Inv, Requeue, QueueOf, Without, Stale, Untouched;
    RefFacts(u, r);
    StaleIs(u.items[r], now);
    RequeueEffect(u, r, u.items[r].queue.lru);
    SameLists(s, u);
    SameLists(UpdateNolock(u, r, now), Remove(UpdateNolock(u, r, now), r));
    if Untouched(u.items[r], now) {
      SameLists(Requeue(u, r, u.items[r].queue.lru), UpdateNolock(u, r, now));
    }
  }

  lemma PullLoad(s: State, q: Queue)
    requires Inv(s)
    ensures Count(s.bytes, q) == SumSeq(s.items, QueueOf(s, q))
  {
    hide TableOk, QueuesOk, RefsOk, SumSeq, QueueOf;
    assert QueueCount(s, q);
  }

  /** The cases of one round of lru_pull_tail. */
  lemma PullCases(s: State, q: Queue, r: Ref, p: Pull)
    requires Inv(s) && r in s.items && s.items[r].refs > 0 && s.items[r].linked
    requires !Dead(s.items[r], p) && !Evicts(q, p)
    ensures var t, it := Incr(s, r), s.items[r];
      var u, one := SetActive(t, r, false), PullOne(s, q, r, p);
      && (GoesWarm(it, q.lru, p) ==>
            var v := Requeue(u, r, Warm); r in v.items && v.items[r].refs > 0 && one == Pulled(Let(v, r, p), true, 1))
      && (GoesCold(it, q.lru, SumSeq(s.items, QueueOf(s, q)), p) ==>
            var v := Requeue(t, r, Cold); r in v.items && v.items[r].refs > 0 && one == Pulled(Let(v, r, p), true, 1))
      && (it.active && q.lru == Warm ==>
            var v := UpdateNolock(u, r, p.now);
            r in v.items && v.items[r].refs > 0 && one == Pulled(Remove(v, r), false, 1))
      && (GoesWarm(it, q.lru, p) || GoesCold(it, q.lru, SumSeq(s.items, QueueOf(s, q)), p)
          || (it.active && q.lru == Warm) || one == Pulled(Let(t, r, p), true, 0))
  {
    hide Inv, Unlink, Requeue, UpdateNolock, Limit, GiveUp, QueueOf, SumSeq, OverShare, Age, Count, Let, Remove,
         MovesToHead, SameOrder, Untouched;
    var t := Incr(s, r);
    IncrKeeps(s, r);
    SetKeeps(t, r, 0, false);
    MoveEffect(s, t, r, Cold, p);
    MoveEffect(s, SetActive(t, r, false), r, Warm, p);
    RefreshEffect(s, SetActive(t, r, false), r, p.now);
    PullLoad(s, q);
    LimitIs(SumSeq(s.items, QueueOf(s, q)), q.lru, p);
    AgeIs(s.items[r], p.now);
    if p.returnItem {
      StayEffect(s, r, p);
    }
  }

  lemma PullMoves(s: State, q: Queue, r: Ref, p: Pull)
    requires Inv(s) && r in QueueOf(s, q) && r in s.items && s.items[r].refs > 0
    requires !Dead(s.items[r], p) && !Evicts(q, p)
    ensures var one := PullOne(s, q, r, p);
      && Pulls(s, one.state, q, r, p)
      && (one.stop <==> !(s.items[r].active && q.lru == Warm))
      && (one.removed == 1 <==>
            || GoesWarm(s.items[r], q.lru, p) || GoesCold(s.items[r], q.lru, SumSeq(s.items, QueueOf(s, q)), p)
            || (s.items[r].active && q.lru == Warm))
  {
    hide Inv, PullOne, Requeue, UpdateNolock, QueueOf, SumSeq, Untouched, MovesToHead, SameOrder, OverShare, Age, Let,
         Remove, Dead, Evicts;
    var t := Incr(s, r);
    var u := SetActive(t, r, false);
    QueueItem(s, q, r);
    PullCases(s, q, r, p);
    IncrKeeps(s, r);
    SetKeeps(t, r, 0, false);
    MoveEffect(s, t, r, Cold, p);
    MoveEffect(s, u, r, Warm, p);
    RefreshEffect(s, u, r, p.now);
    UntouchedSame(s.items[r], u.items[r], p.now);
    StayEffect(s, r, p);
  }

  lemma StayEffect(s: State, r: Ref, p: Pull)
    requires r in s.items && s.items[r].refs > 0
    ensures var t, it := Let(Incr(s, r), r, p), s.items[r];
      SameOrder(s, t) && t.table == s.table && r in t.items
      && t.items[r] == it.(refs := if p.returnItem then it.refs + 1 else it.refs)
    ensures p.returnItem ==> Let(Incr(s, r), r, p) == Incr(s, r)
  {
    SameLists(s, Let(Incr(s, r), r, p));
  }
}
