/**
  slabs.c: the free lists of all slab classes in the memory they share. prev and
  next are fields of the chunks; slots and sl_curr belong to the classes.
 */
module SlabsFreeLists {
  import opened LruSpec
  import opened Links

  datatype Memory = Memory(prev: map<Ref, Ref>, next: map<Ref, Ref>, slots: seq<Ref>, slCurr: seq<nat>)

  /**
    Memory holds, for every class, a doubly linked list of sl_curr chunks that
    starts at slots; no chunk is in two lists.
   */
  ghost predicate Lists(m: Memory, order: seq<seq<Ref>>) {
    && |m.slots| == |m.slCurr| == |order|
    && (forall c :: 0 <= c < |order| ==> IsList(m.prev, m.next, order[c]))
    && (forall c :: 0 <= c < |order| ==> m.slots[c] == Nth(order[c], 0) && m.slCurr[c] == |order[c]|)
    && Apart(order)
  }

  ghost predicate Apart(order: seq<seq<Ref>>) {
    forall c, d, x :: 0 <= c < |order| && 0 <= d < |order| && x in order[c] && x in order[d] ==> c == d
  }

  /** do_slabs_free: the chunk becomes the first of its list. */
  function PushSlot(m: Memory, c: nat, x: Ref): Memory
    requires c < |m.slots| == |m.slCurr|
  {
    var front := m.slots[c];
    Memory(if front != 0 then m.prev[x := 0][front := x] else m.prev[x := 0],
           m.next[x := front], m.slots[c := x], m.slCurr[c := m.slCurr[c] + 1])
  }

  /** do_slabs_alloc: the first chunk leaves its list. */
  function PopSlot(m: Memory, c: nat): Memory
    requires c < |m.slots| == |m.slCurr| && m.slCurr[c] > 0 && m.slots[c] in m.next
  {
    var n := m.next[m.slots[c]];
    Memory(if n != 0 then m.prev[n := 0] else m.prev, m.next, m.slots[c := n], m.slCurr[c := m.slCurr[c] - 1])
  }

  /** slab_rebalance_cut_free: a chunk leaves its list wherever it is. */
  function CutSlot(m: Memory, c: nat, x: Ref): Memory
    requires c < |m.slots| == |m.slCurr| && m.slCurr[c] > 0 && x in m.prev && x in m.next
  {
    Memory(CutPrev(m.prev, m.next, x), CutNext(m.prev, m.next, x),
           if m.slots[c] == x then m.slots[c := m.next[x]] else m.slots, m.slCurr[c := m.slCurr[c] - 1])
  }

  /** The other lists do not notice a write to chunks that are not theirs. */
  lemma OtherList(m: Memory, order: seq<seq<Ref>>, d: nat, prev: map<Ref, Ref>, next: map<Ref, Ref>)
    requires Lists(m, order) && d < |order|
    requires forall x :: x in order[d] ==> x in prev && x in next && prev[x] == m.prev[x] && next[x] == m.next[x]
    ensures IsList(prev, next, order[d])
  {
    SameList(m.prev, m.next, prev, next, order[d]);
  }

  lemma PushSlotOk(m: Memory, order: seq<seq<Ref>>, c: nat, x: Ref)
    requires Lists(m, order) && c < |order| && x != 0 && forall d :: 0 <= d < |order| ==> x !in order[d]
    ensures Lists(PushSlot(m, c, x), order[c := [x] + order[c]])
  {
    var t, o := PushSlot(m, c, x), order[c := [x] + order[c]];
    assert IsList(t.prev, t.next, o[c]) by {
      Pushed(m.prev, m.next, order[c], x);
      NullEnds(m.prev, m.next, order[c]);
    }
    hide IsList;
    forall d | 0 <= d < |o| && d != c
      ensures IsList(t.prev, t.next, o[d])
    {
      ListMembers(m, order, d);
      ListMembers(m, order, c);
      OtherList(m, order, d, t.prev, t.next);
    }
  }

  lemma ListMembers(m: Memory, order: seq<seq<Ref>>, d: nat)
    requires Lists(m, order) && d < |order|
    ensures 0 !in order[d] && (forall x :: x in order[d] ==> x in m.prev && x in m.next)
    ensures Nth(order[d], 0) == 0 <==> order[d] == []
    ensures order[d] != [] ==> Nth(order[d], 0) in order[d]
  {}

  lemma CutSlotOk(m: Memory, order: seq<seq<Ref>>, c: nat, k: nat)
    requires Lists(m, order) && c < |order| && k < |order[c]|
    ensures order[c][k] in m.prev && order[c][k] in m.next && m.slCurr[c] > 0
    ensures Lists(CutSlot(m, c, order[c][k]), order[c := Without(order[c], order[c][k])])
  {
    hide IsList, Without;
    var x := order[c][k];
    Pointers(m.prev, m.next, order[c], k);
    UnlinksAt(m.prev, m.next, order[c], k);
    Cut(m.prev, m.next, order[c], k);
    var t, o := CutSlot(m, c, x), order[c := Without(order[c], x)];
    assert |o[c]| == |order[c]| - 1;
    RemovedMembers(order[c], k);
    forall d | 0 <= d < |o| && d != c
      ensures IsList(t.prev, t.next, o[d])
    {
      ListMembers(m, order, d);
      ListMembers(m, order, c);
      CutElsewhere(m, order, c, k, d);
    }
  }

  lemma RemovedMembers(xs: seq<Ref>, k: nat)
    requires k < |xs|
    ensures forall x :: x in Removed(xs, k) ==> x in xs
  {}

  lemma CutElsewhere(m: Memory, order: seq<seq<Ref>>, c: nat, k: nat, d: nat)
    requires Lists(m, order) && c < |order| && k < |order[c]| && d < |order| && d != c
    ensures order[c][k] in m.prev && order[c][k] in m.next
    ensures IsList(CutPrev(m.prev, m.next, order[c][k]), CutNext(m.prev, m.next, order[c][k]), order[d])
  {
    hide IsList;
    Pointers(m.prev, m.next, order[c], k);
    ListMembers(m, order, d);
    var x := order[c][k];
    assert m.next[x] !in order[d] && m.prev[x] !in order[d];
    OtherList(m, order, d, CutPrev(m.prev, m.next, x), CutNext(m.prev, m.next, x));
  }

  /** Taking the first chunk is cutting it out. */
  lemma PopSlotOk(m: Memory, order: seq<seq<Ref>>, c: nat)
    requires Lists(m, order) && c < |order| && order[c] != []
    ensures m.slots[c] == order[c][0] && m.slots[c] in m.next && m.slCurr[c] > 0
    ensures Lists(PopSlot(m, c), order[c := order[c][1..]])
  {
    hide IsList, Without;
    CutSlotOk(m, order, c, 0);
    Pointers(m.prev, m.next, order[c], 0);
    Cut(m.prev, m.next, order[c], 0);
    assert Removed(order[c], 0) == order[c][1..];
    assert CutSlot(m, c, order[c][0]) == PopSlot(m, c);
  }

  /** The lists as slabs.c updates them. */
  class FreeLists {
    var prev: map<Ref, Ref>
    var next: map<Ref, Ref>
    var slots: seq<Ref>
    var slCurr: seq<nat>
    ghost var order: seq<seq<Ref>>

    ghost function Mem(): Memory
      reads this
    {
      Memory(prev, next, slots, slCurr)
    }

    ghost predicate Valid()
      reads this
    {
      Lists(Mem(), order)
    }

    constructor (classes: nat)
      ensures Valid() && order == seq(classes, _ => [])
    {
      prev, next, slots, slCurr := map[], map[], seq(classes, _ => 0), seq(classes, _ => 0);
      order := seq(classes, _ => []);
    }

    /** do_slabs_free */
    method Push(c: nat, it: Ref)
      requires Valid() && c < |order| && it != 0 && forall d :: 0 <= d < |order| ==> it !in order[d]
      modifies this
      ensures |old(slots)| == |old(slCurr)| && c < |old(slots)| && Mem() == PushSlot(old(Mem()), c, it)
      ensures Valid() && order == old(order)[c := [it] + old(order)[c]]
    {
      PushSlotOk(Mem(), order, c, it);
      hide IsList, Apart;
      prev := prev[it := 0];
      next := next[it := slots[c]];
      if next[it] != 0 {
        prev := prev[next[it] := it];
      }
      slots := slots[c := it];
      slCurr := slCurr[c := slCurr[c] + 1];
      order := order[c := [it] + order[c]];
    }

    /** do_slabs_alloc; 0 when the list is empty. */
    method Pop(c: nat) returns (it: Ref)
      requires Valid() && c < |order|
      modifies this
      ensures old(order)[c] == [] ==> it == 0 && order == old(order) && Mem() == old(Mem())
      ensures old(order)[c] != [] ==> it == old(order)[c][0] && it != 0 && order == old(order)[c := old(order)[c][1..]]
      ensures Valid()
    {
      hide IsList, Apart;
      ListMembers(Mem(), order, c);
      if slCurr[c] == 0 {
        return 0;
      }
      PopSlotOk(Mem(), order, c);
      it := slots[c];
      slots := slots[c := next[it]];
      if next[it] != 0 {
        prev := prev[next[it] := 0];
      }
      slCurr := slCurr[c := slCurr[c] - 1];
      order := order[c := order[c][1..]];
    }

    /** slab_rebalance_cut_free: a chunk leaves the middle of the list. */
    method CutFree(c: nat, it: Ref)
      requires Valid() && c < |order| && it in order[c]
      modifies this
      ensures Valid() && order == old(order)[c := Without(old(order)[c], it)]
    {
      hide IsList, Apart, Without;
      ghost var k :| 0 <= k < |order[c]| && order[c][k] == it;
      CutSlotOk(Mem(), order, c, k);
      ghost var m := Mem();
      if slots[c] == it {
        slots := slots[c := next[it]];
      }
      if next[it] != 0 {
        prev := prev[next[it] := prev[it]];
      }
      if prev[it] != 0 {
        next := next[prev[it] := next[it]];
      }
      slCurr := slCurr[c := slCurr[c] - 1];
      CutKeepsIt(m, order, c, k);
      assert Mem() == CutSlot(m, c, it);
      order := order[c := Without(order[c], it)];
    }
  }

  lemma CutKeepsIt(m: Memory, order: seq<seq<Ref>>, c: nat, k: nat)
    requires Lists(m, order) && c < |order| && k < |order[c]|
    ensures var x := order[c][k]; x in m.prev && x in m.next && m.next[x] != x && m.prev[x] != x
  {
    Pointers(m.prev, m.next, order[c], k);
    Ends(m.prev, m.next, order[c], k);
  }
}
