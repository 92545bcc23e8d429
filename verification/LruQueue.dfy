/**
  items.c and crawler.c: the intrusive doubly linked LRU queues, and the crawler
  pseudo-item that walks through a queue while items come and go.
 */
module LruSpec {

  predicate Distinct<T(==)>(xs: seq<T>) {
    forall i, j :: 0 <= i < j < |xs| ==> xs[i] != xs[j]
  }

  /** The queue without x. */
  function Without<T(==)>(xs: seq<T>, x: T): seq<T> {
    if xs == [] then []
    else if xs[0] == x then Without(xs[1..], x)
    else [xs[0]] + Without(xs[1..], x)
  }

  /** The elements of xs that are in s, in order. */
  function Keep<T(==)>(xs: seq<T>, s: set<T>): seq<T> {
    if xs == [] then []
    else if xs[0] in s then [xs[0]] + Keep(xs[1..], s)
    else Keep(xs[1..], s)
  }

  function Reverse<T>(xs: seq<T>): seq<T> {
    if xs == [] then [] else Reverse(xs[1..]) + [xs[0]]
  }

  function ToSet<T(==)>(xs: seq<T>): set<T> {
    set x | x in xs
  }

  lemma {:induction false} KeepAppend<T>(xs: seq<T>, ys: seq<T>, s: set<T>)
    ensures Keep(xs + ys, s) == Keep(xs, s) + Keep(ys, s)
  {
    if xs == [] {
      assert xs + ys == ys;
    } else {
      KeepAppend(xs[1..], ys, s);
      assert (xs + ys)[1..] == xs[1..] + ys;
    }
  }

  lemma {:induction false} KeepTwice<T>(xs: seq<T>, s: set<T>, t: set<T>)
    requires t <= s
    ensures Keep(Keep(xs, s), t) == Keep(xs, t)
  {
    if xs != [] {
      KeepTwice(xs[1..], s, t);
      if xs[0] in s {
        assert ([xs[0]] + Keep(xs[1..], s))[1..] == Keep(xs[1..], s);
      }
    }
  }

  lemma {:induction false} KeepReverse<T>(xs: seq<T>, s: set<T>)
    ensures Keep(Reverse(xs), s) == Reverse(Keep(xs, s))
  {
    if xs != [] {
      KeepReverse(xs[1..], s);
      KeepAppend(Reverse(xs[1..]), [xs[0]], s);
      assert Keep([xs[0]], s) == if xs[0] in s then [xs[0]] else [];
      if xs[0] in s {
        assert ([xs[0]] + Keep(xs[1..], s))[1..] == Keep(xs[1..], s);
      }
    }
  }

  lemma {:induction false} KeepMembers<T>(xs: seq<T>, s: set<T>, x: T)
    ensures x in Keep(xs, s) <==> x in xs && x in s
  {
    if xs != [] {
      KeepMembers(xs[1..], s, x);
      assert xs == [xs[0]] + xs[1..];
    }
  }

  lemma {:induction false} KeepDistinct<T>(xs: seq<T>, s: set<T>)
    requires Distinct(xs)
    ensures Distinct(Keep(xs, s))
  {
    if xs != [] {
      KeepDistinct(xs[1..], s);
      KeepMembers(xs[1..], s, xs[0]);
      assert xs[0] !in xs[1..];
    }
  }

  lemma {:induction false} KeepOutside<T>(xs: seq<T>, s: set<T>, x: T)
    requires x !in xs
    ensures Keep(xs, s - {x}) == Keep(xs, s)
  {
    if xs != [] {
      assert xs[0] != x && x !in xs[1..];
      KeepOutside(xs[1..], s, x);
    }
  }

  lemma {:induction false} ReverseMembers<T>(xs: seq<T>, x: T)
    ensures x in Reverse(xs) <==> x in xs
  {
    if xs != [] {
      ReverseMembers(xs[1..], x);
      assert xs == [xs[0]] + xs[1..];
    }
  }

  lemma {:induction false} ReverseDistinct<T>(xs: seq<T>)
    requires Distinct(xs)
    ensures Distinct(Reverse(xs))
  {
    if xs != [] {
      ReverseDistinct(xs[1..]);
      ReverseMembers(xs[1..], xs[0]);
      assert xs[0] !in xs[1..];
    }
  }

  lemma {:induction false} WithoutAppend<T>(xs: seq<T>, ys: seq<T>, x: T)
    ensures Without(xs + ys, x) == Without(xs, x) + Without(ys, x)
  {
    if xs == [] {
      assert xs + ys == ys;
    } else {
      WithoutAppend(xs[1..], ys, x);
      assert (xs + ys)[1..] == xs[1..] + ys;
    }
  }

  lemma {:induction false} WithoutAbsent<T>(xs: seq<T>, x: T)
    requires x !in xs
    ensures Without(xs, x) == xs
  {
    if xs != [] {
      assert xs[0] != x && x !in xs[1..];
      WithoutAbsent(xs[1..], x);
    }
  }

  lemma DistinctWithoutAt<T>(xs: seq<T>, k: nat)
    requires k < |xs| && Distinct(xs)
    ensures Distinct(xs[..k] + xs[k + 1..])
  {}

  lemma DistinctSwap<T>(xs: seq<T>, k: nat)
    requires 0 < k < |xs| && Distinct(xs)
    ensures Distinct(xs[k - 1 := xs[k]][k := xs[k - 1]])
  {}

  lemma DistinctTail<T>(xs: seq<T>)
    requires xs != [] && Distinct(xs)
    ensures Distinct(xs[1..])
  {}

  /** Removing the element at a known place. */
  lemma WithoutAt<T>(xs: seq<T>, k: nat)
    requires k < |xs| && Distinct(xs)
    ensures Without(xs, xs[k]) == xs[..k] + xs[k + 1..]
  {
    var x := xs[k];
    assert x !in xs[..k] && x !in xs[k + 1..];
    assert xs == xs[..k] + ([x] + xs[k + 1..]);
    WithoutAppend(xs[..k], [x] + xs[k + 1..], x);
    WithoutAppend([x], xs[k + 1..], x);
    WithoutAbsent(xs[..k], x);
    WithoutAbsent(xs[k + 1..], x);
  }
}

/** Pointer-level queues: what the updates of prev and next in items.c and slabs.c do to the queue they spell out. */
module Links {
  import opened LruSpec

  /** The address of an item; 0 is the null pointer. */
  newtype Ref = x: int | 0 <= x

  function Nth(xs: seq<Ref>, i: int): Ref {
    if 0 <= i < |xs| then xs[i] else 0
  }

  /** Memory holds a doubly linked list with the given items. */
  predicate IsList(prev: map<Ref, Ref>, next: map<Ref, Ref>, order: seq<Ref>) {
    && Distinct(order) && 0 !in order
    && (forall x :: x in order ==> x in prev && x in next)
    && (forall i {:trigger prev[order[i]]} :: 0 <= i < |order| ==> prev[order[i]] == Nth(order, i - 1))
    && (forall i {:trigger next[order[i]]} :: 0 <= i < |order| ==> next[order[i]] == Nth(order, i + 1))
  }

  lemma Pointers(prev: map<Ref, Ref>, next: map<Ref, Ref>, order: seq<Ref>, k: nat)
    requires IsList(prev, next, order) && k < |order|
    ensures order[k] in prev && order[k] in next
    ensures prev[order[k]] == Nth(order, k - 1) && next[order[k]] == Nth(order, k + 1)
    ensures order[k] != 0
  {}

  /** Nothing follows or precedes itself, and null is only at the ends. */
  lemma Ends(prev: map<Ref, Ref>, next: map<Ref, Ref>, order: seq<Ref>, k: nat)
    requires IsList(prev, next, order) && k < |order|
    ensures Nth(order, k - 1) == 0 <==> k == 0
    ensures Nth(order, k + 1) == 0 <==> k == |order| - 1
    ensures order[k] == Nth(order, 0) <==> k == 0
    ensures order[k] == Nth(order, |order| - 1) <==> k == |order| - 1
    ensures order[k] != Nth(order, k - 1) && order[k] != Nth(order, k + 1)
    ensures k > 0 ==> Nth(order, k - 1) != Nth(order, k + 1)
    ensures k > 0 ==> (order[k - 1] == Nth(order, 0) <==> k == 1)
  {}

  lemma NullEnds(prev: map<Ref, Ref>, next: map<Ref, Ref>, order: seq<Ref>)
    requires IsList(prev, next, order)
    ensures Nth(order, 0) == 0 <==> order == []
    ensures Nth(order, |order| - 1) == 0 <==> order == []
    ensures order != [] ==> Nth(order, |order| - 1) in next && next[Nth(order, |order| - 1)] == 0
    ensures order != [] ==> Nth(order, 0) in prev && prev[Nth(order, 0)] == 0
  {}

  /** Only the items of the list matter. */
  lemma SameList(prev: map<Ref, Ref>, next: map<Ref, Ref>, prev': map<Ref, Ref>, next': map<Ref, Ref>, order: seq<Ref>)
    requires IsList(prev, next, order)
    requires forall x :: x in order ==> x in prev' && x in next' && prev'[x] == prev[x] && next'[x] == next[x]
    ensures IsList(prev', next', order)
  {}

  lemma Pushed(prev: map<Ref, Ref>, next: map<Ref, Ref>, order: seq<Ref>, x: Ref)
    requires IsList(prev, next, order) && x != 0 && x !in order
    ensures order == [] ==> IsList(prev[x := 0], next[x := 0], [x])
    ensures order != [] ==> IsList(prev[x := 0][order[0] := x], next[x := order[0]], [x] + order)
  {
    if order != [] {
      var p, n, o := prev[x := 0][order[0] := x], next[x := order[0]], [x] + order;
      forall i | 0 <= i < |o|
        ensures p[o[i]] == Nth(o, i - 1) && n[o[i]] == Nth(o, i + 1)
      {
        assert i > 0 ==> o[i] == order[i - 1];
      }
    }
  }

  lemma Appended(prev: map<Ref, Ref>, next: map<Ref, Ref>, order: seq<Ref>, x: Ref)
    requires IsList(prev, next, order) && x != 0 && x !in order
    ensures order == [] ==> IsList(prev[x := 0], next[x := 0], [x])
    ensures order != [] ==> IsList(prev[x := order[|order| - 1]], next[x := 0][order[|order| - 1] := x], order + [x])
  {
    if order != [] {
      var last := order[|order| - 1];
      var p, n, o := prev[x := last], next[x := 0][last := x], order + [x];
      forall i | 0 <= i < |o|
        ensures p[o[i]] == Nth(o, i - 1) && n[o[i]] == Nth(o, i + 1)
      {
        assert i < |order| ==> o[i] == order[i];
      }
    }
  }

  /** prev and next after it has been unlinked. */
  function CutPrev(prev: map<Ref, Ref>, next: map<Ref, Ref>, it: Ref): map<Ref, Ref>
    requires it in prev && it in next
  {
    if next[it] != 0 then prev[next[it] := prev[it]] else prev
  }

  function CutNext(prev: map<Ref, Ref>, next: map<Ref, Ref>, it: Ref): map<Ref, Ref>
    requires it in prev && it in next
  {
    if prev[it] != 0 then next[prev[it] := next[it]] else next
  }

  lemma Differ(prev: map<Ref, Ref>, next: map<Ref, Ref>, order: seq<Ref>, i: int, j: int)
    requires IsList(prev, next, order)
    ensures 0 <= i < |order| && i != j ==> Nth(order, i) != Nth(order, j)
  {}

  lemma NotInTail(prev: map<Ref, Ref>, next: map<Ref, Ref>, order: seq<Ref>)
    requires IsList(prev, next, order) && order != []
    ensures order[0] !in order[1..]
    ensures order[1..] == Removed(order, 0)
  {}

  function Removed(order: seq<Ref>, k: nat): seq<Ref>
    requires k < |order|
  {
    order[..k] + order[k + 1..]
  }

  lemma CutAt(prev: map<Ref, Ref>, next: map<Ref, Ref>, order: seq<Ref>, k: nat, i: nat)
    requires IsList(prev, next, order) && k < |order| && i < |order| - 1
    ensures order[k] in prev && order[k] in next
    ensures var it := order[k]; var o := Removed(order, k); var p := CutPrev(prev, next, it);
      var n := CutNext(prev, next, it);
      o[i] in p && o[i] in n && p[o[i]] == Nth(o, i - 1) && n[o[i]] == Nth(o, i + 1)
  {
    hide IsList;
    var j := if i < k then i else i + 1;
    Pointers(prev, next, order, k);
    Pointers(prev, next, order, j);
    Differ(prev, next, order, j, k - 1);
    Differ(prev, next, order, j, k + 1);
    assert Removed(order, k)[i] == order[j];
  }

  lemma Cut(prev: map<Ref, Ref>, next: map<Ref, Ref>, order: seq<Ref>, k: nat)
    requires IsList(prev, next, order) && k < |order|
    ensures var it := order[k]; var o := Removed(order, k);
      IsList(CutPrev(prev, next, it), CutNext(prev, next, it), o) && o == Without(order, it)
  {
    var it, o := order[k], Removed(order, k);
    assert Distinct(o) && o == Without(order, it) by {
      DistinctWithoutAt(order, k);
      WithoutAt(order, k);
    }
    hide Distinct, Without;
    var p, n := CutPrev(prev, next, it), CutNext(prev, next, it);
    forall i | 0 <= i < |o|
      ensures o[i] in p && o[i] in n && p[o[i]] == Nth(o, i - 1) && n[o[i]] == Nth(o, i + 1)
    {
      CutAt(prev, next, order, k, i);
    }
  }

  /** The updates of an unlink turn order into order without the item, and its ends are known. */
  predicate Unlinks(prev: map<Ref, Ref>, next: map<Ref, Ref>, order: seq<Ref>, it: Ref) {
    var o := Without(order, it);
    && it in prev && it in next
    && IsList(CutPrev(prev, next, it), CutNext(prev, next, it), o)
    && Nth(o, 0) == (if Nth(order, 0) == it then next[it] else Nth(order, 0))
    && Nth(o, |o| - 1) == (if Nth(order, |order| - 1) == it then prev[it] else Nth(order, |order| - 1))
    && next[it] != it && prev[it] != it && (next[it] == prev[it] ==> next[it] == 0)
    && (Nth(order, 0) == it ==> prev[it] == 0)
    && (Nth(order, |order| - 1) == it ==> next[it] == 0)
  }

  lemma UnlinksAt(prev: map<Ref, Ref>, next: map<Ref, Ref>, order: seq<Ref>, k: nat)
    requires IsList(prev, next, order) && k < |order|
    ensures Unlinks(prev, next, order, order[k])
  {
    hide IsList, Without;
    Cut(prev, next, order, k);
    Pointers(prev, next, order, k);
    Ends(prev, next, order, k);
  }

  /** An item in front of the list that the list does not know: nothing changes. */
  lemma UnlinksFront(prev: map<Ref, Ref>, next: map<Ref, Ref>, order: seq<Ref>, it: Ref)
    requires IsList(prev, next, order) && it in prev && it in next
    requires it !in order && order != [] && prev[it] == 0 && next[it] == order[0] && it != 0
    ensures Unlinks(prev, next, order, it)
  {
    hide IsList, Without;
    WithoutAbsent(order, it);
    Pointers(prev, next, order, 0);
    assert order[0] in order && order[|order| - 1] in order;
    assert CutPrev(prev, next, it) == prev && CutNext(prev, next, it) == next;
  }

  function Swapped(order: seq<Ref>, k: nat): seq<Ref>
    requires 0 < k < |order|
  {
    order[k - 1 := order[k]][k := order[k - 1]]
  }

  /** prev and next after the item at k has changed places with the one in front of it. */
  function SwungPrev(prev: map<Ref, Ref>, next: map<Ref, Ref>, it: Ref, front: Ref): map<Ref, Ref>
    requires it in prev && it in next && front in prev
  {
    CutPrev(prev, next, it)[it := prev[front]][front := it]
  }

  function SwungNext(prev: map<Ref, Ref>, next: map<Ref, Ref>, it: Ref, front: Ref): map<Ref, Ref>
    requires it in next && front in prev
  {
    var n := next[front := next[it]][it := front];
    if prev[front] != 0 then n[prev[front] := it] else n
  }

  lemma SwungAt(prev: map<Ref, Ref>, next: map<Ref, Ref>, order: seq<Ref>, k: nat, i: nat)
    requires IsList(prev, next, order) && 0 < k < |order| && i < |order|
    ensures order[k] in prev && order[k] in next && order[k - 1] in prev
    ensures var o := Swapped(order, k);
      var p := SwungPrev(prev, next, order[k], order[k - 1]); var n := SwungNext(prev, next, order[k], order[k - 1]);
      o[i] in p && o[i] in n && p[o[i]] == Nth(o, i - 1) && n[o[i]] == Nth(o, i + 1)
  {
    hide IsList;
    Pointers(prev, next, order, k);
    Pointers(prev, next, order, k - 1);
    Pointers(prev, next, order, i);
    Differ(prev, next, order, i, k - 2);
    Differ(prev, next, order, i, k - 1);
    Differ(prev, next, order, i, k);
    Differ(prev, next, order, i, k + 1);
    Differ(prev, next, order, k - 1, k + 1);
    Differ(prev, next, order, k, k + 1);
    Differ(prev, next, order, k, k - 1);
    Differ(prev, next, order, k, k - 2);
    Differ(prev, next, order, k - 1, k - 2);
  }

  lemma Swung(prev: map<Ref, Ref>, next: map<Ref, Ref>, order: seq<Ref>, k: nat)
    requires IsList(prev, next, order) && 0 < k < |order|
    ensures order[k] in prev && order[k] in next && order[k - 1] in prev
    ensures IsList(SwungPrev(prev, next, order[k], order[k - 1]), SwungNext(prev, next, order[k], order[k - 1]),
      Swapped(order, k))
  {
    var o := Swapped(order, k);
    DistinctSwap(order, k);
    hide Distinct;
    var p, n := SwungPrev(prev, next, order[k], order[k - 1]), SwungNext(prev, next, order[k], order[k - 1]);
    forall i | 0 <= i < |o|
      ensures o[i] in p && o[i] in n && p[o[i]] == Nth(o, i - 1) && n[o[i]] == Nth(o, i + 1)
    {
      SwungAt(prev, next, order, k, i);
    }
  }
}

/** items.c: one LRU queue in memory. */
module LruQueue {
  import opened LruSpec
  import opened Links

  class Queue {
    var prev: map<Ref, Ref>
    var next: map<Ref, Ref>
    var head: Ref
    var tail: Ref
    ghost var order: seq<Ref>

    ghost predicate Valid()
      reads this
    {
      IsList(prev, next, order) && head == Nth(order, 0) && tail == Nth(order, |order| - 1)
    }

    constructor ()
      ensures Valid() && order == []
    {
      prev, next, head, tail, order := map[], map[], 0, 0, [];
    }

    /** do_item_link_q */
    method LinkQ(it: Ref)
      requires Valid() && it != 0 && it !in order
      modifies this
      ensures Valid() && order == [it] + old(order)
    {
      Pushed(prev, next, order, it);
      NullEnds(prev, next, order);
      hide IsList;
      assert it != head && (head == 0 <==> tail == 0);
      prev := prev[it := 0];
      next := next[it := head];
      if next[it] != 0 {
        prev := prev[next[it] := it];
      }
      head := it;
      if tail == 0 {
        tail := it;
      }
      order := [it] + order;
    }

    /** do_item_linktail_q */
    method LinkTailQ(it: Ref)
      requires Valid() && it != 0 && it !in order
      modifies this
      ensures Valid() && order == old(order) + [it]
    {
      Appended(prev, next, order, it);
      NullEnds(prev, next, order);
      hide IsList;
      assert it != tail && (head == 0 <==> tail == 0);
      prev := prev[it := tail];
      next := next[it := 0];
      if prev[it] != 0 {
        next := next[prev[it] := it];
      }
      tail := it;
      if head == 0 {
        head := it;
      }
      order := order + [it];
    }

    /**
      do_item_unlink_q and do_item_unlinktail_q. The latter also meets a crawler
      that do_item_crawl_q has popped off the head.
     */
    method UnlinkQ(it: Ref)
      requires Valid() && (it in order || Popped(it))
      modifies this
      ensures Valid() && order == Without(old(order), it)
    {
      hide IsList, Without;
      if it in order {
        ghost var k :| 0 <= k < |order| && order[k] == it;
        UnlinksAt(prev, next, order, k);
      } else {
        NullEnds(prev, next, order);
        UnlinksFront(prev, next, order, it);
      }
      ghost var p, n := prev, next;
      if head == it {
        assert prev[it] == 0;
        head := next[it];
      }
      if tail == it {
        assert next[it] == 0;
        tail := prev[it];
      }
      assert next[it] != it && prev[it] != it;
      if next[it] != 0 {
        prev := prev[next[it] := prev[it]];
      }
      if prev[it] != 0 {
        next := next[prev[it] := next[it]];
      }
      assert prev == CutPrev(p, n, it) && next == CutNext(p, n, it);
      order := Without(order, it);
    }

    ghost predicate Popped(it: Ref)
      reads this
    {
      it != 0 && it !in order && it in prev && it in next && prev[it] == 0 && next[it] == head && head != 0
    }

    /**
      do_item_crawl_q: the crawler changes places with the item in front of it,
      which is returned. At the head it is popped off.
     */
    method CrawlQ(it: Ref, ghost k: nat) returns (search: Ref)
      requires Valid() && k < |order| && order[k] == it
      modifies this
      ensures Valid()
      ensures k > 0 ==> search == old(order)[k - 1] && order == Swapped(old(order), k)
      ensures k == 0 <==> search == 0
      ensures k == 0 && |old(order)| > 1 ==> order == old(order)[1..] && Popped(it)
      ensures k == 0 && |old(order)| == 1 ==> order == old(order)
    {
      hide IsList;
      Pointers(prev, next, order, k);
      Ends(prev, next, order, k);
      if prev[it] == 0 {
        assert head == it;
        if next[it] != 0 {
          PopHead(it);
        }
        return 0;
      }
      Swung(prev, next, order, k);
      Pointers(prev, next, order, k - 1);
      Differ(prev, next, order, k, k - 2);
      Swing(it);
      order := Swapped(order, k);
      return next[it];
    }

    /** The pointer updates of a crawl step. */
    method Swing(it: Ref)
      requires it in prev && it in next && prev[it] in prev && prev[it] in next && next[prev[it]] == it
      requires prev[it] != it && next[it] != it && prev[prev[it]] != it && (next[it] == prev[it] ==> next[it] == 0)
      modifies `prev, `next, `head, `tail
      ensures prev == SwungPrev(old(prev), old(next), it, old(prev[it]))
      ensures next == SwungNext(old(prev), old(next), it, old(prev[it])) && it in next && next[it] == old(prev[it])
      ensures head == if old(head) == old(prev[it]) then it else old(head)
      ensures tail == if old(tail) == it then old(prev[it]) else old(tail)
    {
      if head == prev[it] {
        head := it;
      }
      if tail == it {
        tail := prev[it];
      }
      if next[it] != 0 {
        next := next[prev[it] := next[it]];
        prev := prev[next[it] := prev[it]];
      } else {
        next := next[prev[it] := 0];
      }
      next := next[it := prev[it]];
      prev := prev[it := prev[next[it]]];
      prev := prev[next[it] := it];
      if prev[it] != 0 {
        next := next[prev[it] := it];
      }
    }

    /** The head of a longer queue is taken off; its own pointers stay. */
    method PopHead(it: Ref)
      requires Valid() && |order| > 1 && order[0] == it
      modifies this
      ensures Valid() && order == old(order)[1..] && Popped(it)
    {
      hide IsList, Without;
      Cut(prev, next, order, 0);
      Pointers(prev, next, order, 0);
      Pointers(prev, next, order, 1);
      Ends(prev, next, order, 0);
      NotInTail(prev, next, order);
      head := next[it];
      assert prev[next[it]] == it;
      prev := prev[next[it] := 0];
      order := order[1..];
    }

    /** lru_crawler_class_done after the crawl has reached the head: the queue is back to its items. */
    method CrawlLast(crawler: Ref)
      requires Valid() && order != [] && order[0] == crawler
      modifies this
      ensures Valid() && order == old(order)[1..]
    {
      hide IsList, Without;
      NotInTail(prev, next, order);
      Cut(prev, next, order, 0);
      WithoutAbsent(order[1..], crawler);
      var search := CrawlQ(crawler, 0);
      UnlinkQ(crawler);
    }
  }
}
