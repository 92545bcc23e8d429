/**
  crawler.c: one crawl of an LRU queue, from the moment the crawler is linked at
  the tail until it reaches the head, while workers link items at the head and
  unlink items anywhere.
 */
module Crawler {
  import opened LruSpec
  import opened Links
  import opened LruQueue

  /**
    A crawl in progress: the queue with the crawler in it, the items handed to
    the module so far, and the items that were unlinked or linked since the start.
   */
  datatype Crawl = Crawl(queue: seq<Ref>, seen: seq<Ref>, moved: set<Ref>)

  datatype Step =
    | Advance           // do_item_crawl_q with an item in front
    | Link(item: Ref)   // do_item_link_q: a new item, or one that is moved within its queue
    | Unlink(item: Ref) // do_item_unlink_q

  /** Where the crawler is. */
  function IndexOf(xs: seq<Ref>, x: Ref): (k: nat)
    requires x in xs
    ensures k < |xs| && xs[k] == x
  {
    if xs[0] == x then 0 else 1 + IndexOf(xs[1..], x)
  }

  predicate Enabled(s: Crawl, c: Ref, step: Step) {
    && c in s.queue
    && match step
       case Advance => IndexOf(s.queue, c) > 0
       case Link(x) => x != 0 && x !in s.queue
       case Unlink(x) => x in s.queue && x != c
  }

  function Apply(s: Crawl, c: Ref, step: Step): Crawl
    requires Enabled(s, c, step)
  {
    match step
    case Advance =>
      var k := IndexOf(s.queue, c);
      Crawl(Swapped(s.queue, k), s.seen + [s.queue[k - 1]], s.moved)
    case Link(x) => Crawl([x] + s.queue, s.seen, s.moved + {x})
    case Unlink(x) => Crawl(Without(s.queue, x), s.seen, s.moved + {x})
  }

  /** do_lru_crawler_start: the crawler is the new tail. */
  function Start(items: seq<Ref>, c: Ref): Crawl {
    Crawl(items + [c], [], {})
  }

  function Run(s: Crawl, c: Ref, steps: seq<Step>): Crawl
    requires CanRun(s, c, steps)
    decreases |steps|
  {
    if steps == [] then s else Run(Apply(s, c, steps[0]), c, steps[1..])
  }

  predicate CanRun(s: Crawl, c: Ref, steps: seq<Step>)
    decreases |steps|
  {
    steps == [] || (Enabled(s, c, steps[0]) && CanRun(Apply(s, c, steps[0]), c, steps[1..]))
  }

  /** The part of the queue in front of the crawler. */
  function Ahead(s: Crawl, c: Ref): seq<Ref>
    requires c in s.queue
  {
    s.queue[..IndexOf(s.queue, c)]
  }

  /** The items that have been in the queue all along. */
  function Stayed(items: seq<Ref>, s: Crawl): set<Ref> {
    ToSet(items) - s.moved
  }

  /** Seen items, then the items still ahead, are the original queue backwards, as far as items that stayed go. */
  ghost predicate Inv(items: seq<Ref>, s: Crawl, c: Ref) {
    && Distinct(s.queue) && c in s.queue && c !in items
    && Keep(s.seen + Reverse(Ahead(s, c)), Stayed(items, s)) == Reverse(Keep(items, Stayed(items, s)))
    && Keep(s.queue, Stayed(items, s)) == Keep(items, Stayed(items, s))
  }

  lemma IndexOfUnique(xs: seq<Ref>, k: nat)
    requires Distinct(xs) && k < |xs|
    ensures IndexOf(xs, xs[k]) == k
  {}

  lemma {:induction false} ReverseSnoc(xs: seq<Ref>, x: Ref)
    ensures Reverse(xs + [x]) == [x] + Reverse(xs)
  {
    if xs == [] {
      assert [] + [x] == [x];
    } else {
      ReverseSnoc(xs[1..], x);
      assert (xs + [x])[1..] == xs[1..] + [x];
    }
  }

  lemma {:induction false} KeepAllIn(xs: seq<Ref>, s: set<Ref>)
    requires forall x :: x in xs ==> x in s
    ensures Keep(xs, s) == xs
  {
    if xs != [] {
      assert forall x :: x in xs[1..] ==> x in xs;
      KeepAllIn(xs[1..], s);
    }
  }

  lemma KeepWithout(xs: seq<Ref>, s: set<Ref>, x: Ref)
    requires x !in s
    ensures Keep(Without(xs, x), s) == Keep(xs, s)
  {
    if xs != [] {
      KeepWithout(xs[1..], s, x);
      if xs[0] != x {
        assert ([xs[0]] + Without(xs[1..], x))[1..] == Without(xs[1..], x);
      }
    }
  }

  /** The crawl moves the crawler only. */
  lemma SwapKeepsOrder(xs: seq<Ref>, k: nat)
    requires Distinct(xs) && 0 < k < |xs|
    ensures Without(Swapped(xs, k), xs[k]) == Without(xs, xs[k])
  {
    hide Distinct, Without;
    var ys := Swapped(xs, k);
    DistinctSwap(xs, k);
    WithoutAt(xs, k);
    WithoutAt(ys, k - 1);
    assert ys[..k - 1] == xs[..k - 1];
    assert ys[k..] == [xs[k - 1]] + xs[k + 1..];
    assert xs[..k] == xs[..k - 1] + [xs[k - 1]];
  }

  lemma Shrink(xs: seq<Ref>, items: seq<Ref>, s: set<Ref>, t: set<Ref>)
    requires t <= s && Keep(xs, s) == Reverse(Keep(items, s))
    ensures Keep(xs, t) == Reverse(Keep(items, t))
  {
    KeepTwice(xs, s, t);
    KeepReverse(Keep(items, s), t);
    KeepTwice(items, s, t);
  }

  lemma StartInv(items: seq<Ref>, c: Ref)
    requires Distinct(items) && c !in items
    ensures Inv(items, Start(items, c), c)
  {
    var s := Start(items, c);
    IndexOfUnique(s.queue, |items|);
    assert s.queue[|items|] == c && Ahead(s, c) == items;
    assert [] + Reverse(items) == Reverse(items);
    KeepReverse(items, Stayed(items, s));
    KeepAppend(items, [c], Stayed(items, s));
  }

  lemma AdvanceKeeps(items: seq<Ref>, s: Crawl, c: Ref)
    requires Inv(items, s, c) && Enabled(s, c, Advance)
    ensures Inv(items, Apply(s, c, Advance), c)
  {
    hide Keep, Without, Reverse;
    var k := IndexOf(s.queue, c);
    var t := Apply(s, c, Advance);
    var stayed := Stayed(items, s);
    DistinctSwap(s.queue, k);
    IndexOfUnique(t.queue, k - 1);
    var ahead, front := s.queue[..k - 1], s.queue[k - 1];
    assert Ahead(s, c) == ahead + [front] && Ahead(t, c) == ahead;
    ReverseSnoc(ahead, front);
    assert t.seen + Reverse(ahead) == s.seen + ([front] + Reverse(ahead));
    SwapKeepsOrder(s.queue, k);
    KeepWithout(s.queue, stayed, c);
    KeepWithout(t.queue, stayed, c);
  }

  lemma LinkKeeps(items: seq<Ref>, s: Crawl, c: Ref, x: Ref)
    requires Inv(items, s, c) && Enabled(s, c, Link(x))
    ensures Inv(items, Apply(s, c, Link(x)), c)
  {
    var t := Apply(s, c, Link(x));
    var stayed, staying := Stayed(items, s), Stayed(items, t);
    var before := s.seen + Reverse(Ahead(s, c));
    hide Reverse;
    IndexOfUnique(t.queue, 1 + IndexOf(s.queue, c));
    assert Ahead(t, c) == [x] + Ahead(s, c);
    Shrink(before, items, stayed, staying);
    ReverseCons(x, Ahead(s, c));
    assert t.seen + Reverse(Ahead(t, c)) == before + [x];
    KeepAppend(before, [x], staying);
    KeepAppend([x], s.queue, staying);
    KeepTwice(s.queue, stayed, staying);
    KeepTwice(items, stayed, staying);
  }

  lemma ReverseCons(x: Ref, xs: seq<Ref>)
    ensures Reverse([x] + xs) == Reverse(xs) + [x]
  {
    assert ([x] + xs)[1..] == xs;
  }

  lemma UnlinkKeeps(items: seq<Ref>, s: Crawl, c: Ref, x: Ref)
    requires Inv(items, s, c) && Enabled(s, c, Unlink(x))
    ensures Inv(items, Apply(s, c, Unlink(x)), c)
  {
    hide Keep, Reverse;
    var t := Apply(s, c, Unlink(x));
    var stayed, staying := Stayed(items, s), Stayed(items, t);
    var ahead := Ahead(s, c);
    UnlinkAhead(s, c, x);
    Shrink(s.seen + Reverse(ahead), items, stayed, staying);
    KeepAppend(s.seen, Reverse(ahead), staying);
    KeepAppend(s.seen, Reverse(Without(ahead, x)), staying);
    KeepReverse(ahead, staying);
    KeepReverse(Without(ahead, x), staying);
    KeepWithout(ahead, staying, x);
    KeepWithout(s.queue, staying, x);
    KeepTwice(s.queue, stayed, staying);
    KeepTwice(items, stayed, staying);
  }

  lemma UnlinkAhead(s: Crawl, c: Ref, x: Ref)
    requires Distinct(s.queue) && Enabled(s, c, Unlink(x))
    ensures var t := Apply(s, c, Unlink(x)); Distinct(t.queue) && c in t.queue && Ahead(t, c) == Without(Ahead(s, c), x)
  {
    var k := IndexOf(s.queue, c);
    var ahead, behind := s.queue[..k], s.queue[k + 1..];
    assert s.queue == ahead + [c] + behind;
    WithoutAppend(ahead + [c], behind, x);
    WithoutAppend(ahead, [c], x);
    WithoutAbsent([c], x);
    hide Without;
    assert c !in ahead;
    WithoutMembers(ahead, x, c);
    WithoutDistinct(s.queue, x);
    IndexOfSplit(Without(ahead, x), c, Without(behind, x));
  }

  lemma {:induction false} IndexOfSplit(xs: seq<Ref>, c: Ref, ys: seq<Ref>)
    requires c !in xs
    ensures var queue := xs + [c] + ys; c in queue && IndexOf(queue, c) == |xs| && queue[..|xs|] == xs
  {
    var queue := xs + [c] + ys;
    assert queue[|xs|] == c && queue[..|xs|] == xs;
    if xs != [] {
      assert queue[0] != c && queue[1..] == xs[1..] + [c] + ys;
      IndexOfSplit(xs[1..], c, ys);
    }
  }

  lemma {:induction false} WithoutMembers(xs: seq<Ref>, x: Ref, y: Ref)
    ensures y in Without(xs, x) <==> y in xs && y != x
  {
    if xs != [] {
      WithoutMembers(xs[1..], x, y);
      assert xs == [xs[0]] + xs[1..];
    }
  }

  lemma {:induction false} WithoutDistinct(xs: seq<Ref>, x: Ref)
    requires Distinct(xs)
    ensures Distinct(Without(xs, x))
  {
    if xs != [] {
      WithoutDistinct(xs[1..], x);
      WithoutMembers(xs[1..], x, xs[0]);
      assert xs[0] !in xs[1..];
    }
  }

  lemma {:induction false} RunKeeps(items: seq<Ref>, s: Crawl, c: Ref, steps: seq<Step>)
    requires Inv(items, s, c) && CanRun(s, c, steps)
    ensures Inv(items, Run(s, c, steps), c)
    decreases |steps|
  {
    if steps != [] {
      match steps[0] {
        case Advance => AdvanceKeeps(items, s, c);
        case Link(x) => LinkKeeps(items, s, c, x);
        case Unlink(x) => UnlinkKeeps(items, s, c, x);
      }
      RunKeeps(items, Apply(s, c, steps[0]), c, steps[1..]);
    }
  }

  lemma {:induction false} CountOnce(xs: seq<Ref>, s: set<Ref>, x: Ref)
    requires x in s
    ensures multiset(xs)[x] == multiset(Keep(xs, s))[x]
  {
    if xs != [] {
      CountOnce(xs[1..], s, x);
      assert xs == [xs[0]] + xs[1..];
    }
  }

  lemma {:induction false} DistinctCount(xs: seq<Ref>, x: Ref)
    requires Distinct(xs)
    ensures multiset(xs)[x] == if x in xs then 1 else 0
  {
    if xs != [] {
      DistinctCount(xs[1..], x);
      assert xs == [xs[0]] + xs[1..];
      assert xs[0] !in xs[1..];
    }
  }

  /**
    However workers link and unlink items meanwhile, a crawl that reaches the head
    has returned the items that stayed in tail-to-head order, each exactly once,
    and has not disturbed their order in the queue.
   */
  lemma CrawlComplete(items: seq<Ref>, c: Ref, steps: seq<Step>)
    requires Distinct(items) && c !in items && CanRun(Start(items, c), c, steps)
    requires var s := Run(Start(items, c), c, steps); c in s.queue ==> Ahead(s, c) == []
    ensures var s := Run(Start(items, c), c, steps);
      && Keep(s.seen, Stayed(items, s)) == Reverse(Keep(items, Stayed(items, s)))
      && Keep(Without(s.queue, c), Stayed(items, s)) == Keep(items, Stayed(items, s))
    ensures var s := Run(Start(items, c), c, steps);
      forall x :: x in items && x !in s.moved ==> multiset(s.seen)[x] == 1
  {
    hide Keep, Reverse, Without;
    StartInv(items, c);
    RunKeeps(items, Start(items, c), c, steps);
    var s := Run(Start(items, c), c, steps);
    var stayed := Stayed(items, s);
    ReverseEmpty();
    assert s.seen + [] == s.seen;
    KeepWithout(s.queue, stayed, c);
    forall x | x in items && x !in s.moved
      ensures multiset(s.seen)[x] == 1
    {
      SeenOnce(s.seen, items, stayed, x);
    }
  }

  lemma SeenOnce(seen: seq<Ref>, items: seq<Ref>, stayed: set<Ref>, x: Ref)
    requires Distinct(items) && x in items && x in stayed
    requires Keep(seen, stayed) == Reverse(Keep(items, stayed))
    ensures multiset(seen)[x] == 1
  {
    hide Keep, Reverse;
    CountOnce(seen, stayed, x);
    KeepDistinct(items, stayed);
    ReverseDistinct(Keep(items, stayed));
    DistinctCount(Reverse(Keep(items, stayed)), x);
    ReverseMembers(Keep(items, stayed), x);
    KeepMembers(items, stayed, x);
  }

  lemma ReverseEmpty()
    ensures Reverse<Ref>([]) == []
  {}

  function Advances(n: nat): (steps: seq<Step>)
    ensures |steps| == n
  {
    if n == 0 then [] else [Advance] + Advances(n - 1)
  }

  /**
    A crawl nobody interferes with sees the whole queue in as many steps as there
    are items, and leaves it as it was.
   */
  lemma QuietCrawl(items: seq<Ref>, c: Ref)
    requires Distinct(items) && c !in items
    ensures CanRun(Start(items, c), c, Advances(|items|))
    ensures Run(Start(items, c), c, Advances(|items|)) == Crawl([c] + items, Reverse(items), {})
  {
    QuietFrom(items, c, |items|, []);
    assert items + [c] + [] == items + [c];
    assert items[..|items|] == items && items[|items|..] == [];
    assert [] + Reverse(items) == Reverse(items);
  }

  lemma {:induction false} QuietFrom(items: seq<Ref>, c: Ref, k: nat, seen: seq<Ref>)
    requires c !in items && k <= |items|
    ensures var s := Crawl(items[..k] + [c] + items[k..], seen, {});
      CanRun(s, c, Advances(k)) && Run(s, c, Advances(k)) == Crawl([c] + items, seen + Reverse(items[..k]), {})
    decreases k
  {
    hide Reverse, IndexOf;
    var s := Crawl(items[..k] + [c] + items[k..], seen, {});
    if k == 0 {
      assert s.queue == [c] + items;
      ReverseEmpty();
      assert seen + [] == seen && items[..0] == [];
    } else {
      var front := items[k - 1];
      QuietStep(items, c, k, seen);
      QuietFrom(items, c, k - 1, seen + [front]);
      assert Advances(k) == [Advance] + Advances(k - 1);
      assert items[..k] == items[..k - 1] + [front];
      ReverseSnoc(items[..k - 1], front);
      assert seen + [front] + Reverse(items[..k - 1]) == seen + ([front] + Reverse(items[..k - 1]));
    }
  }

  lemma QuietStep(items: seq<Ref>, c: Ref, k: nat, seen: seq<Ref>)
    requires c !in items && 0 < k <= |items|
    ensures var s := Crawl(items[..k] + [c] + items[k..], seen, {});
      Enabled(s, c, Advance) &&
      Apply(s, c, Advance) == Crawl(items[..k - 1] + [c] + items[k - 1..], seen + [items[k - 1]], {})
  {
    hide IndexOf;
    var s := Crawl(items[..k] + [c] + items[k..], seen, {});
    IndexOfSplit(items[..k], c, items[k..]);
    assert Swapped(s.queue, k) == items[..k - 1] + [c] + items[k - 1..];
  }

  /** The loop of item_crawler_thread for one queue, from do_lru_crawler_start to lru_crawler_class_done. */
  method CrawlQueue(q: Queue, crawler: Ref) returns (seen: seq<Ref>)
    requires q.Valid() && crawler != 0 && crawler !in q.order
    modifies q
    ensures q.Valid() && q.order == old(q.order) && seen == Reverse(old(q.order))
  {
    hide IsList, Queue.Valid;
    ghost var items, k := q.order, |q.order|;
    q.LinkTailQ(crawler);
    seen := [];
    assert q.order == items[..k] + [crawler] + items[k..];
    ReverseEmpty();
    assert items[k..] == [];
    WithoutAbsent(items, crawler);
    assert Without([crawler], crawler) == [];
    hide Without;
    while true
      invariant q.Valid() && 0 <= k <= |items| && q.order == items[..k] + [crawler] + items[k..]
      invariant seen == Reverse(items[k..])
      invariant crawler !in items
      decreases k
    {
      var search := q.CrawlQ(crawler, k);
      if search == 0 {
        assert items[0..] == items && q.order == (if items == [] then [crawler] else items);
        break;
      }
      assert Swapped(items[..k] + [crawler] + items[k..], k) == items[..k - 1] + [crawler] + items[k - 1..];
      assert items[k - 1..][1..] == items[k..];
      seen, k := seen + [search], k - 1;
    }
    q.UnlinkQ(crawler);
  }
}
