/** What holds of items, hash table, LRU queues, references and counters in every run of items.c operations. */
module ItemsInvariant {
  import opened ItemsTypes
  import opened ItemsSteps
  import opened Links
  import opened LruSpec

  // ----- sums -----

  function SizeOf(items: map<Ref, Item>, r: Ref): nat {
    if r in items then items[r].size else 0
  }

  function SumSeq(items: map<Ref, Item>, xs: seq<Ref>): nat {
    if xs == [] then 0 else SizeOf(items, xs[0]) + SumSeq(items, xs[1..])
  }

  ghost function SumSet(items: map<Ref, Item>, xs: set<Ref>): nat {
    if xs == {} then 0
    else
      var r :| r in xs;
      SizeOf(items, r) + SumSet(items, xs - {r})
  }

  /** The sum does not depend on the order in which the set is taken apart. */
  lemma {:induction false} SumSetRemove(items: map<Ref, Item>, xs: set<Ref>, r: Ref)
    requires r in xs
    ensures SumSet(items, xs) == SizeOf(items, r) + SumSet(items, xs - {r})
  {
    var first :| first in xs && SumSet(items, xs) == SizeOf(items, first) + SumSet(items, xs - {first});
    if first != r {
      SumSetRemove(items, xs - {first}, r);
      SumSetRemove(items, xs - {r}, first);
      assert xs - {first} - {r} == xs - {r} - {first};
    }
  }

  lemma {:induction false} SumSetSame(items: map<Ref, Item>, items': map<Ref, Item>, xs: set<Ref>)
    requires forall r :: r in xs ==> SizeOf(items, r) == SizeOf(items', r)
    ensures SumSet(items, xs) == SumSet(items', xs)
  {
    if xs != {} {
      var r :| r in xs;
      SumSetRemove(items, xs, r);
      SumSetRemove(items', xs, r);
      SumSetSame(items, items', xs - {r});
    }
  }

  lemma {:induction false} SumSeqSame(items: map<Ref, Item>, items': map<Ref, Item>, xs: seq<Ref>)
    requires forall r :: r in xs ==> SizeOf(items, r) == SizeOf(items', r)
    ensures SumSeq(items, xs) == SumSeq(items', xs)
  {
    if xs != [] {
      assert xs[0] in xs && forall r :: r in xs[1..] ==> r in xs;
      SumSeqSame(items, items', xs[1..]);
    }
  }

  lemma {:induction false} SumSeqWithout(items: map<Ref, Item>, xs: seq<Ref>, r: Ref)
    requires Distinct(xs) && r in xs
    ensures SumSeq(items, Without(xs, r)) + SizeOf(items, r) == SumSeq(items, xs)
    ensures |Without(xs, r)| == |xs| - 1
  {
    DistinctTail(xs);
    if xs[0] == r {
      assert r !in xs[1..];
      WithoutAbsent(xs[1..], r);
    } else {
      assert xs == [xs[0]] + xs[1..];
      SumSeqWithout(items, xs[1..], r);
      assert ([xs[0]] + Without(xs[1..], r))[1..] == Without(xs[1..], r);
    }
  }

  // ----- the invariant -----

  function LinkedSet(s: State): set<Ref> {
    set r | r in s.items && s.items[r].linked
  }

  function TableRefs(it: Item): nat {
    if it.linked then 1 else 0
  }

  /** LINKED is the same as being in the hash table. */
  ghost predicate TableOk(s: State) {
    && (forall k :: k in s.table ==>
         s.table[k] in s.items && s.items[s.table[k]].linked && s.items[s.table[k]].key == k)
    && (forall r :: r in s.items && s.items[r].linked ==> s.items[r].key in s.table && s.table[s.items[r].key] == r)
  }

  /** LINKED is the same as being in the queue of slabs_clsid, once, and in no other. */
  ghost predicate QueuesOk(s: State) {
    && (forall q :: q in s.order ==> Distinct(s.order[q]))
    && (forall q, r :: q in s.order && r in s.order[q] ==> r in s.items && s.items[r].linked && s.items[r].queue == q)
    && (forall r :: r in s.items && s.items[r].linked ==> r in QueueOf(s, s.items[r].queue))
  }

  /**
    The reference count is the table's reference, the holders and the queued bumps;
    an item exists while it is not zero.
   */
  ghost predicate RefsOk(s: State) {
    && (forall r :: r in s.items ==> s.items[r].refs == TableRefs(s.items[r]) + s.held[r] + multiset(s.bumps)[r])
    && (forall r :: r in s.items ==> s.items[r].refs >= 1)
    && (forall r :: s.held[r] > 0 ==> r in s.items)
    && (forall r :: r in s.bumps ==> r in s.items)
  }

  /** sizes, sizes_bytes, curr_items and curr_bytes are the true counts and sums. */
  ghost predicate CountsOk(s: State) {
    QueueCounts(s) && Totals(s)
  }

  ghost predicate QueueCounts(s: State) {
    forall q :: QueueCount(s, q)
  }

  ghost predicate QueueCount(s: State, q: Queue) {
    Count(s.sizes, q) == |QueueOf(s, q)| && Count(s.bytes, q) == SumSeq(s.items, QueueOf(s, q))
  }

  ghost predicate Totals(s: State) {
    s.currItems == |LinkedSet(s)| && s.currBytes == SumSet(s.items, LinkedSet(s))
  }

  ghost predicate Inv(s: State) {
    TableOk(s) && QueuesOk(s) && RefsOk(s) && CountsOk(s)
  }

  // ----- changes that leave links, keys, queues and sizes alone -----

  /** The items are the same but for reference counts, times, flags and expiry, and unlinked items may come and go. */
  ghost predicate SameLinks(s: State, t: State) {
    && t.table == s.table && t.order == s.order && t.sizes == s.sizes && t.bytes == s.bytes
    && t.currItems == s.currItems && t.currBytes == s.currBytes
    && (forall r :: r in s.items && s.items[r].linked ==> r in t.items && t.items[r].linked)
    && (forall r :: r in t.items && t.items[r].linked ==> r in s.items && s.items[r].linked)
    && (forall r :: r in s.items && s.items[r].linked ==>
          && t.items[r].key == s.items[r].key && t.items[r].queue == s.items[r].queue
          && t.items[r].size == s.items[r].size)
  }

  lemma SameLinksTable(s: State, t: State)
    requires TableOk(s) && SameLinks(s, t)
    ensures TableOk(t)
  {}

  lemma SameLinksQueues(s: State, t: State)
    requires QueuesOk(s) && SameLinks(s, t)
    ensures QueuesOk(t)
  {
    hide Distinct;
  }

  lemma SameLinksCounts(s: State, t: State)
    requires QueuesOk(s) && CountsOk(s) && SameLinks(s, t)
    ensures CountsOk(t)
  {
    hide Distinct, SumSeq, SumSet;
    assert LinkedSet(t) == LinkedSet(s);
    SumSetSame(s.items, t.items, LinkedSet(s));
    forall q
      ensures QueueCount(t, q)
    {
      assert QueueCount(s, q);
      SumSeqSame(s.items, t.items, QueueOf(s, q));
    }
  }

  lemma SameLinksKeeps(s: State, t: State)
    requires Inv(s) && SameLinks(s, t) && RefsOk(t)
    ensures Inv(t)
  {
    hide TableOk, QueuesOk, RefsOk, CountsOk, SameLinks;
    SameLinksTable(s, t);
    SameLinksQueues(s, t);
    SameLinksCounts(s, t);
  }

  // ----- references -----

  /** One item changes, but not its key, queue, size or links. */
  lemma OneItem(s: State, t: State, r: Ref, it: Item)
    requires r in s.items && it.key == s.items[r].key && it.queue == s.items[r].queue
    requires it.size == s.items[r].size && it.linked == s.items[r].linked
    requires t == s.(items := s.items[r := it], held := t.held, bumps := t.bumps)
    ensures SameLinks(s, t)
  {}

  lemma IncrRefs(s: State, r: Ref)
    requires RefsOk(s) && r in s.items
    ensures RefsOk(Incr(s, r))
  {}

  lemma IncrKeeps(s: State, r: Ref)
    requires Inv(s) && r in s.items
    ensures Inv(Incr(s, r))
  {
    hide TableOk, QueuesOk, RefsOk, CountsOk, SameLinks;
    IncrRefs(s, r);
    OneItem(s, Incr(s, r), r, Incr(s, r).items[r]);
    SameLinksKeeps(s, Incr(s, r));
  }

  lemma RemoveRefs(s: State, r: Ref)
    requires RefsOk(s) && r in s.items && s.held[r] > 0
    ensures s.items[r].refs > 0 && RefsOk(Remove(s, r))
    ensures s.items[r].refs == 1 ==> !s.items[r].linked && s.held[r] == 1 && r !in s.bumps
    ensures s.items[r].linked ==> s.items[r].refs > 1
  {
    assert r in s.bumps <==> multiset(s.bumps)[r] > 0;
  }

  /** An item is freed exactly when its last reference is dropped, and it is not linked then. */
  lemma RemoveKeeps(s: State, r: Ref)
    requires Inv(s) && r in s.items && s.held[r] > 0
    ensures s.items[r].refs > 0 && Inv(Remove(s, r))
    ensures r !in Remove(s, r).items <==> s.items[r].refs == 1
    ensures r !in Remove(s, r).items ==> !s.items[r].linked && s.held[r] == 1 && r !in s.bumps
  {
    hide TableOk, QueuesOk, RefsOk, CountsOk;
    RemoveRefs(s, r);
    RemoveLinks(s, r);
    hide SameLinks;
    SameLinksKeeps(s, Remove(s, r));
  }

  lemma RemoveLinks(s: State, r: Ref)
    requires r in s.items && s.items[r].refs > 0 && (s.items[r].linked ==> s.items[r].refs > 1)
    ensures SameLinks(s, Remove(s, r))
  {}

  /** Times, flags and expiry do not matter. */
  ghost predicate SameCore(it: Item, jt: Item) {
    it.key == jt.key && it.queue == jt.queue && it.size == jt.size && it.linked == jt.linked && it.refs == jt.refs
  }

  lemma AdjustRefs(s: State, r: Ref, it: Item)
    requires RefsOk(s) && r in s.items && SameCore(s.items[r], it)
    ensures RefsOk(s.(items := s.items[r := it]))
  {}

  lemma AdjustKeeps(s: State, r: Ref, it: Item)
    requires Inv(s) && r in s.items && SameCore(s.items[r], it)
    ensures Inv(s.(items := s.items[r := it]))
  {
    hide TableOk, QueuesOk, RefsOk, CountsOk, SameLinks;
    var t := s.(items := s.items[r := it]);
    AdjustRefs(s, r, it);
    OneItem(s, t, r, it);
    SameLinksKeeps(s, t);
  }

  lemma BumpRefs(s: State, r: Ref)
    requires RefsOk(s) && r in s.items
    ensures RefsOk(BumpAsync(s, r, true))
  {
    assert multiset(s.bumps + [r]) == multiset(s.bumps) + multiset{r};
  }

  /** A bump that is queued holds the item until it is worked off; without room only the ACTIVE mark is touched. */
  lemma BumpKeeps(s: State, r: Ref, room: bool)
    requires Inv(s) && r in s.items
    ensures var t := BumpAsync(s, r, room); Inv(t) && t.held == s.held && r in t.items
    ensures var t := BumpAsync(s, r, room); var more := if room then 1 else 0;
      t.items[r].refs == s.items[r].refs + more && multiset(t.bumps)[r] == multiset(s.bumps)[r] + more
    ensures !room ==> BumpAsync(s, r, room) == s.(items := s.items[r := s.items[r].(active := false)])
  {
    hide TableOk, QueuesOk, RefsOk, CountsOk, SameLinks;
    var t := BumpAsync(s, r, room);
    if !room {
      AdjustKeeps(s, r, t.items[r]);
    } else {
      BumpRefs(s, r);
      OneItem(s, t, r, t.items[r]);
      SameLinksKeeps(s, t);
    }
  }

  lemma UnbumpRefs(s: State)
    requires RefsOk(s) && s.bumps != []
    ensures RefsOk(s.(bumps := s.bumps[1..], held := s.held + multiset{s.bumps[0]})) && s.bumps[0] in s.items
  {
    assert s.bumps == [s.bumps[0]] + s.bumps[1..];
    assert multiset(s.bumps) == multiset(s.bumps[1..]) + multiset{s.bumps[0]};
  }

  /** The reference of a queued bump passes to the code that works it off. */
  lemma UnbumpKeeps(s: State)
    requires Inv(s) && s.bumps != []
    ensures Inv(s.(bumps := s.bumps[1..], held := s.held + multiset{s.bumps[0]})) && s.bumps[0] in s.items
  {
    hide TableOk, QueuesOk, RefsOk, CountsOk;
    var t := s.(bumps := s.bumps[1..], held := s.held + multiset{s.bumps[0]});
    UnbumpRefs(s);
    assert SameLinks(s, t);
    hide SameLinks;
    SameLinksKeeps(s, t);
  }

  // ----- linking -----

  lemma LinkTable(s: State, r: Ref, now: Time)
    requires TableOk(s) && r in s.items && !s.items[r].linked && s.items[r].key !in s.table
    ensures TableOk(Link(s, r, now))
  {}

  lemma FrontDistinct(s: State, r: Ref, q: Queue)
    requires QueuesOk(s) && r in s.items && !s.items[r].linked
    ensures Distinct([r] + QueueOf(s, q))
  {
    assert r !in QueueOf(s, q);
  }

  lemma LinkQueues(s: State, r: Ref, now: Time)
    requires QueuesOk(s) && r in s.items && !s.items[r].linked
    ensures QueuesOk(Link(s, r, now))
  {
    hide Distinct;
    var t, q := Link(s, r, now), s.items[r].queue;
    FrontDistinct(s, r, q);
    assert t.order[q] == [r] + QueueOf(s, q);
  }

  lemma LinkRefs(s: State, r: Ref, now: Time)
    requires RefsOk(s) && r in s.items && !s.items[r].linked
    ensures RefsOk(Link(s, r, now))
  {}

  lemma LinkTotals(s: State, r: Ref, now: Time)
    requires Totals(s) && r in s.items && !s.items[r].linked
    ensures Totals(Link(s, r, now))
  {
    hide SumSet;
    var t := Link(s, r, now);
    assert LinkedSet(t) == LinkedSet(s) + {r} && r !in LinkedSet(s);
    SumSetRemove(t.items, LinkedSet(t), r);
    assert LinkedSet(t) - {r} == LinkedSet(s);
    SumSetSame(s.items, t.items, LinkedSet(s));
  }

  lemma LinkCounts(s: State, r: Ref, now: Time)
    requires QueueCounts(s) && r in s.items && !s.items[r].linked
    ensures QueueCounts(Link(s, r, now))
  {
    var t := Link(s, r, now);
    forall q
      ensures QueueCount(t, q)
    {
      assert QueueCount(s, q);
      SumSeqSame(s.items, t.items, QueueOf(s, q));
      if q == s.items[r].queue {
        assert ([r] + QueueOf(s, q))[1..] == QueueOf(s, q);
      }
    }
  }

  lemma LinkKeeps(s: State, r: Ref, now: Time)
    requires Inv(s) && r in s.items && !s.items[r].linked && s.items[r].key !in s.table
    ensures Inv(Link(s, r, now))
  {
    hide TableOk, QueuesOk, RefsOk, QueueCounts, Totals, Link;
    LinkTable(s, r, now);
    LinkQueues(s, r, now);
    LinkRefs(s, r, now);
    LinkCounts(s, r, now);
    LinkTotals(s, r, now);
  }

  lemma DetachTable(s: State, r: Ref)
    requires TableOk(s) && r in s.items && s.items[r].linked
    ensures TableOk(Detach(s, r))
  {}

  lemma DetachQueues(s: State, r: Ref)
    requires QueuesOk(s) && r in s.items && s.items[r].linked
    ensures QueuesOk(Detach(s, r))
  {
    var t, q := Detach(s, r), s.items[r].queue;
    assert q in s.order && Distinct(s.order[q]);
    WithoutIn(s.order[q], r);
    hide Distinct, Without;
    assert t.order[q] == Without(s.order[q], r);
  }

  lemma WithoutIn(xs: seq<Ref>, r: Ref)
    requires Distinct(xs)
    ensures Distinct(Without(xs, r))
    ensures forall x :: x in Without(xs, r) <==> x in xs && x != r
  {
    if r in xs {
      var k :| 0 <= k < |xs| && xs[k] == r;
      WithoutAt(xs, k);
      DistinctWithoutAt(xs, k);
    } else {
      WithoutAbsent(xs, r);
    }
  }

  lemma DetachRefs(s: State, r: Ref)
    requires RefsOk(s) && r in s.items && s.items[r].linked
    ensures RefsOk(Detach(s, r))
  {}

  lemma DetachTotals(s: State, r: Ref)
    requires Totals(s) && r in s.items && s.items[r].linked
    ensures Totals(Detach(s, r))
  {
    hide SumSet, Without;
    var t := Detach(s, r);
    assert LinkedSet(t) == LinkedSet(s) - {r} && r in LinkedSet(s);
    SumSetRemove(s.items, LinkedSet(s), r);
    SumSetSame(s.items, t.items, LinkedSet(t));
  }

  lemma DetachCounts(s: State, r: Ref)
    requires QueuesOk(s) && QueueCounts(s) && r in s.items && s.items[r].linked
    ensures QueueCounts(Detach(s, r))
  {
    var t, q0 := Detach(s, r), s.items[r].queue;
    assert q0 in s.order && r in s.order[q0] && Distinct(s.order[q0]);
    hide Distinct, SumSeq, Without, QueuesOk;
    SumSeqWithout(s.items, s.order[q0], r);
    forall q
      ensures QueueCount(t, q)
    {
      assert QueueCount(s, q);
      SumSeqSame(s.items, t.items, QueueOf(t, q));
    }
  }

  lemma DetachKeeps(s: State, r: Ref)
    requires Inv(s) && r in s.items && s.items[r].linked
    ensures Inv(Detach(s, r))
  {
    hide TableOk, QueuesOk, RefsOk, QueueCounts, Totals, Detach;
    DetachTable(s, r);
    DetachQueues(s, r);
    DetachRefs(s, r);
    DetachCounts(s, r);
    DetachTotals(s, r);
  }
}
