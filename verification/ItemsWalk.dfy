/** lru_pull_tail: the walk from the tail of a queue, and the item at which it ends. */
module ItemsWalk {
  import opened ItemsTypes
  import opened ItemsSteps
  import opened ItemsEffects
  import opened ItemsInvariant
  import opened ItemsProofs
  import opened Links
  import opened LruSpec

  lemma UnlinkAfterIncr(s: State, r: Ref)
    requires Inv(s) && r in s.items
    ensures var t := Incr(s, r); t.items[r].refs > 1 && r in Unlink(t, r).items && Unlink(t, r).held == t.held
  {
    hide Inv, Unlink;
    RefFacts(s, r);
    IncrKeeps(s, r);
    UnlinkKeeps(Incr(s, r), r);
  }

  function LastOf(xs: seq<Ref>): (r: Option<Ref>)
    ensures r.Some? <==> xs != []
    ensures r.Some? ==> r.value in xs
  {
    if xs == [] then None else Some(xs[|xs| - 1])
  }

  /** The prev pointer of r. */
  function BeforeOf(xs: seq<Ref>, r: Ref): (b: Option<Ref>)
    requires Distinct(xs)
    ensures b.Some? ==> b.value in xs && b.value != r
    ensures forall i :: 0 <= i < |xs| && xs[i] == r ==> b == if i == 0 then None else Some(xs[i - 1])
  {
    if |xs| <= 1 || xs[0] == r then None
    else if xs[1] == r then Some(xs[0])
    else BeforeOf(xs[1..], r)
  }

  lemma DistinctQueue(s: State, q: Queue)
    requires Inv(s)
    ensures Distinct(QueueOf(s, q))
  {
    hide TableOk, RefsOk, CountsOk;
  }

  /**
    Keys that left the table belonged to expired or flushed items, unless the cold
    queue was asked to evict; the others have their items still.
   */
  ghost predicate OnlyDeadOrEvicted(s: State, t: State, q: Queue, p: Pull, flushed: set<Ref>) {
    && (forall k :: k in t.table ==> k in s.table && t.table[k] == s.table[k])
    && (forall k :: k in t.table ==> SameExptime(s, t, t.table[k]))
    && (forall k :: k in s.table && k !in t.table ==> Evicts(q, p) || WasDead(s, s.table[k], p, flushed))
  }

  predicate SameExptime(s: State, t: State, r: Ref) {
    r in s.items && r in t.items && t.items[r].exptime == s.items[r].exptime
  }

  predicate WasDead(s: State, r: Ref, p: Pull, flushed: set<Ref>) {
    r in s.items && Dead(s.items[r], p.(flushed := r in flushed))
  }

  // ----- the item at which the walk ends -----

  /** The walk passes over locked, expired and flushed items, and in a warm queue over active ones. */
  predicate Passed(s: State, r: Ref, q: Queue, p: Pull, locked: set<Ref>, flushed: set<Ref>) {
    r in locked || WasDead(s, r, p, flushed) || (q.lru == Warm && r in s.items && s.items[r].active)
  }

  /** The item nearest to the end of xs, among the last n, that is not passed over. */
  function Choice(s: State, xs: seq<Ref>, n: nat, q: Queue, p: Pull, locked: set<Ref>, flushed: set<Ref>): Option<Ref>
    decreases n
  {
    if n == 0 || xs == [] then None
    else if Passed(s, xs[|xs| - 1], q, p, locked, flushed) then Choice(s, xs[..|xs| - 1], n - 1, q, p, locked, flushed)
    else Some(xs[|xs| - 1])
  }

  /** A walk that is to evict takes exactly that item from the table, and otherwise only expired or flushed items. */
  ghost predicate EvictsTail(s: State, t: State, q: Queue, p: Pull, locked: set<Ref>, flushed: set<Ref>) {
    var r := Choice(s, QueueOf(s, q), 5, q, p, locked, flushed);
    && (forall k :: k in s.table && k !in t.table ==>
         WasDead(s, s.table[k], p, flushed) || (Evicts(q, p) && r == Some(s.table[k])))
    && (Evicts(q, p) && r.Some? ==> r.value in s.items && s.items[r.value].key !in t.table)
  }

  /**
    What becomes of that item if it is not evicted. It goes to the head of the warm
    queue if it is active, to the head of the cold queue if it is not and its queue
    holds more than its share or it is too old, and stays in its queue otherwise.
   */
  ghost predicate Settled(s: State, t: State, q: Queue, r: Ref, p: Pull) {
    && r in s.items && r in t.items && t.items[r].linked
    && var it, load := s.items[r], SumSeq(t.items, QueueOf(t, q));
       var warm, cold := q.(lru := Warm), q.(lru := Cold);
       && (GoesWarm(it, q.lru, p) ==>
             t.items[r].queue == warm && !t.items[r].active && QueueOf(t, warm) == [r] + QueueOf(s, warm))
       && (!GoesWarm(it, q.lru, p) && t.items[r].queue != q ==>
             && GoesCold(it, q.lru, load + it.size, p)
             && t.items[r].queue == cold && QueueOf(t, cold) == [r] + QueueOf(s, cold))
       && (t.items[r].queue == q ==>
             !GoesCold(it, q.lru, load, p) && !GoesWarm(it, q.lru, p) && t.items[r].active == it.active)
  }

  ghost predicate SettlesTail(s: State, t: State, q: Queue, p: Pull, locked: set<Ref>, flushed: set<Ref>) {
    var r := Choice(s, QueueOf(s, q), 5, q, p, locked, flushed);
    !Evicts(q, p) && r.Some? ==> Settled(s, t, q, r.value, p)
  }

  /** The items that the walk passes over on the way to that item. */
  function Skipped(s: State, xs: seq<Ref>, n: nat, q: Queue, p: Pull, locked: set<Ref>, flushed: set<Ref>): set<Ref>
    decreases n
  {
    if n == 0 || xs == [] || !Passed(s, xs[|xs| - 1], q, p, locked, flushed) then {}
    else {xs[|xs| - 1]} + Skipped(s, xs[..|xs| - 1], n - 1, q, p, locked, flushed)
  }

  /** Of the items to be passed over, but for the rest, the expired and flushed ones are gone, unless locked. */
  ghost predicate Reclaimed(s: State, t: State, q: Queue, p: Pull, locked: set<Ref>, flushed: set<Ref>,
                            rest: set<Ref>) {
    forall r :: r in Skipped(s, QueueOf(s, q), 5, q, p, locked, flushed) && r !in rest && r !in locked ==>
      WasDead(s, r, p, flushed) ==> s.items[r].key !in t.table
  }

  ghost predicate ReclaimsTail(s: State, t: State, q: Queue, p: Pull, locked: set<Ref>, flushed: set<Ref>) {
    Reclaimed(s, t, q, p, locked, flushed, {})
  }

  ghost predicate NoNewKeys(s: State, t: State) {
    forall k :: k in t.table ==> k in s.table
  }

  /** The items of xs are as they were. */
  ghost predicate SameItems(s: State, t: State, xs: seq<Ref>) {
    forall r :: r in xs ==> r in s.items && r in t.items && t.items[r] == s.items[r]
  }

  ghost predicate OtherQueuesSame(s: State, t: State, q: Queue) {
    forall o :: o != q ==> QueueOf(t, o) == QueueOf(s, o)
  }

  /**
    The walk stands at place i of the original queue, behind d items that were
    refreshed and put in front. What it passed is of no interest to it, and what lies
    ahead is as it was. Below 0 the walk is among the items it has refreshed itself.
   */
  ghost predicate Walked(s0: State, s: State, q: Queue, p: Pull, locked: set<Ref>, flushed: set<Ref>, i: int, d: nat,
                         tries: nat, search: Option<Ref>) {
    var xs, ys := QueueOf(s0, q), QueueOf(s, q);
    && -1 <= i < |xs|
    && (i >= 0 ==>
          && d + i < |ys| && ys[d..d + i + 1] == xs[..i + 1] && search == Some(xs[i])
          && SameItems(s0, s, xs[..i + 1]) && OtherQueuesSame(s0, s, q))
    && (Evicts(q, p) ==> d == 0 && (i < 0 ==> search.None?))
    && Choice(s0, xs, 5, q, p, locked, flushed) == Choice(s0, xs[..i + 1], tries, q, p, locked, flushed)
    && (Evicts(q, p) ==> forall k :: k in s0.table && k !in s.table ==> WasDead(s0, s0.table[k], p, flushed))
    && Reclaimed(s0, s, q, p, locked, flushed, Skipped(s0, xs[..i + 1], tries, q, p, locked, flushed))
  }

  lemma WalkBegins(s: State, q: Queue, p: Pull, locked: set<Ref>, flushed: set<Ref>)
    requires Inv(s)
    ensures Walked(s, s, q, p, locked, flushed, |QueueOf(s, q)| - 1, 0, 5, LastOf(QueueOf(s, q)))
  {
    var xs := QueueOf(s, q);
    forall r | r in xs
      ensures r in s.items
    {
      QueueItem(s, q, r);
    }
    assert xs[..|xs|] == xs && xs[0..|xs|] == xs;
  }

  /** One place further. */
  lemma Onward(s0: State, s: State, t: State, q: Queue, p: Pull, locked: set<Ref>, flushed: set<Ref>, i: int, d: nat,
               tries: nat, r: Ref, e: nat)
    requires Walked(s0, s, q, p, locked, flushed, i, d, tries, Some(r)) && i >= 0 && tries > 0
    requires Passed(s0, r, q, p, locked, flushed) && Distinct(QueueOf(s, q))
    requires OtherQueuesSame(s, t, q) && SameItems(s, t, QueueOf(s0, q)[..i]) && NoNewKeys(s, t)
    requires r !in locked && WasDead(s0, r, p, flushed) ==> s0.items[r].key !in t.table
    requires i > 0 ==> e + i <= |QueueOf(t, q)| && QueueOf(t, q)[e..e + i] == QueueOf(s, q)[d..d + i]
    requires Evicts(q, p) ==> e == 0
    requires Evicts(q, p) ==> forall k :: k in s0.table && k !in t.table ==> WasDead(s0, s0.table[k], p, flushed)
    ensures Walked(s0, t, q, p, locked, flushed, i - 1, e, tries - 1, BeforeOf(QueueOf(s, q), r))
  {
    hide Passed, WasDead, Evicts, QueueOf, Distinct;
    var xs, ys, zs := QueueOf(s0, q), QueueOf(s, q), QueueOf(t, q);
    assert xs[..i + 1][..i] == xs[..i] && xs[..i + 1][i] == xs[i];
    assert ys[d..d + i + 1][i] == ys[d + i] == r;
    if i > 0 {
      assert ys[d..d + i] == ys[d..d + i + 1][..i] == xs[..i];
      assert ys[d + i - 1] == ys[d..d + i][i - 1] == xs[i - 1];
      assert xs[..i] == zs[e..e + i];
    }
  }

  lemma WalkPasses(s0: State, s: State, q: Queue, p: Pull, locked: set<Ref>, flushed: set<Ref>, i: int, d: nat,
                   tries: nat, r: Ref) returns (i': int)
    requires Walked(s0, s, q, p, locked, flushed, i, d, tries, Some(r)) && tries > 0 && r in locked
    requires Distinct(QueueOf(s, q))
    ensures Walked(s0, s, q, p, locked, flushed, i', d, tries - 1, BeforeOf(QueueOf(s, q), r))
  {
    hide WasDead, Evicts, QueueOf, Distinct;
    i' := i;
    if i >= 0 {
      assert QueueOf(s0, q)[..i] <= QueueOf(s0, q)[..i + 1];
      Onward(s0, s, s, q, p, locked, flushed, i, d, tries, r, d);
      i' := i - 1;
    }
  }

  /** The end of a walk that found nothing to stop at, or had nothing left to say. */
  lemma WalkEnds(s0: State, s: State, q: Queue, p: Pull, locked: set<Ref>, flushed: set<Ref>, i: int, d: nat,
                 tries: nat, search: Option<Ref>)
    requires OnlyDeadOrEvicted(s0, s, q, p, flushed) && Walked(s0, s, q, p, locked, flushed, i, d, tries, search)
    requires tries == 0 || search.None? || i < 0
    ensures EvictsTail(s0, s, q, p, locked, flushed) && SettlesTail(s0, s, q, p, locked, flushed)
    ensures ReclaimsTail(s0, s, q, p, locked, flushed)
  {}

  lemma {:induction false} WithoutSlice(xs: seq<Ref>, r: Ref, d: nat, i: nat)
    requires Distinct(xs) && d + i < |xs| && xs[d + i] == r
    ensures |Without(xs, r)| == |xs| - 1 && Without(xs, r)[d..d + i] == xs[d..d + i]
  {
    WithoutAt(xs, d + i);
  }

  /** An expired or flushed item is taken out, and the walk goes on. */
  lemma DeadPull(s: State, q: Queue, r: Ref, p: Pull)
    requires Inv(s) && r in QueueOf(s, q) && r in s.items && s.items[r].refs > 0 && Dead(s.items[r], p)
    ensures var one := PullOne(s, q, r, p);
      && !one.stop && one.state.table == s.table - {s.items[r].key} && OthersSame(s, one.state, r)
      && QueueOf(one.state, q) == Without(QueueOf(s, q), r) && OtherQueuesSame(s, one.state, q)
  {
    hide Inv, Unlink, QueueOf, Without;
    var t := Incr(s, r);
    QueueItem(s, q, r);
    GiveUpEffect(s, r);
    UnlinkEffect(t, r);
    SameLists(s, t);
    SameLists(Unlink(t, r), GiveUp(t, r));
  }

  /** Of the items ahead of the walk none is r. */
  lemma AheadSame(s0: State, s: State, t: State, q: Queue, p: Pull, locked: set<Ref>, flushed: set<Ref>, i: int, d: nat,
                  tries: nat, r: Ref)
    requires Walked(s0, s, q, p, locked, flushed, i, d, tries, Some(r)) && i >= 0
    requires Distinct(QueueOf(s, q)) && OthersSame(s, t, r)
    ensures SameItems(s, t, QueueOf(s0, q)[..i])
    ensures d + i < |QueueOf(s, q)| && QueueOf(s, q)[d + i] == r && r in s0.items && s.items[r] == s0.items[r]
  {
    var xs, ys := QueueOf(s0, q), QueueOf(s, q);
    assert ys[d..d + i + 1][i] == ys[d + i] == r && xs[..i + 1][i] == r;
    forall x | x in xs[..i]
      ensures x in s.items && x != r
    {
      var k :| 0 <= k < i && xs[..i][k] == x;
      assert xs[..i + 1][k] == x == ys[d..d + i + 1][k] == ys[d + k];
    }
  }

  lemma WalkReclaims(s0: State, s: State, t: State, q: Queue, p: Pull, locked: set<Ref>, flushed: set<Ref>, i: int,
                     d: nat, tries: nat, r: Ref)
    requires Walked(s0, s, q, p, locked, flushed, i, d, tries, Some(r)) && i >= 0 && tries > 0
    requires WasDead(s0, r, p, flushed) && Distinct(QueueOf(s, q))
    requires QueueOf(t, q) == Without(QueueOf(s, q), r) && OtherQueuesSame(s, t, q) && OthersSame(s, t, r)
    requires r in s.items && t.table == s.table - {s.items[r].key}
    requires s.items[r].key in s0.table && s0.table[s.items[r].key] == r
    ensures Walked(s0, t, q, p, locked, flushed, i - 1, d, tries - 1, BeforeOf(QueueOf(s, q), r))
  {
    hide WasDead, QueueOf, Distinct, Choice;
    AheadSame(s0, s, t, q, p, locked, flushed, i, d, tries, r);
    WithoutSlice(QueueOf(s, q), r, d, i);
    Onward(s0, s, t, q, p, locked, flushed, i, d, tries, r, d);
  }

  /** An active warm item stays where it is or is put in front, and the walk goes on. */
  lemma WalkRefreshes(s0: State, s: State, t: State, q: Queue, p: Pull, locked: set<Ref>, flushed: set<Ref>, i: int,
                      d: nat, tries: nat, r: Ref) returns (e: nat)
    requires Walked(s0, s, q, p, locked, flushed, i, d, tries, Some(r)) && i >= 0 && tries > 0
    requires q.lru == Warm && r in s.items && s.items[r].active && s.items[r].queue == q && Distinct(QueueOf(s, q))
    requires MovesToHead(s, t, r, q) || SameOrder(s, t)
    requires OthersSame(s, t, r) && t.table == s.table && !WasDead(s0, r, p, flushed)
    ensures Walked(s0, t, q, p, locked, flushed, i - 1, e, tries - 1, BeforeOf(QueueOf(s, q), r))
  {
    hide WasDead, QueueOf, Distinct, Choice, Without;
    AheadSame(s0, s, t, q, p, locked, flushed, i, d, tries, r);
    e := d;
    if MovesToHead(s, t, r, q) {
      e := d + 1;
      WithoutSlice(QueueOf(s, q), r, d, i);
      var rest := Without(QueueOf(s, q), r);
      assert ([r] + rest)[e..e + i] == rest[d..d + i];
    }
    Onward(s0, s, t, q, p, locked, flushed, i, d, tries, r, e);
  }

  lemma WalkEvicts(s0: State, s: State, t: State, q: Queue, p: Pull, locked: set<Ref>, flushed: set<Ref>, i: int,
                   d: nat, tries: nat, r: Ref)
    requires Walked(s0, s, q, p, locked, flushed, i, d, tries, Some(r)) && tries > 0 && r !in locked
    requires !WasDead(s0, r, p, flushed)
    requires Evicts(q, p) && r in s.items && t.table == s.table - {s.items[r].key} && r in s0.items
    requires s.items[r].key in s0.table && s0.table[s.items[r].key] == r && s0.items[r].key == s.items[r].key
    ensures EvictsTail(s0, t, q, p, locked, flushed) && SettlesTail(s0, t, q, p, locked, flushed)
  {
    var xs := QueueOf(s0, q);
    assert Choice(s0, xs[..i + 1], tries, q, p, locked, flushed) == Some(r);
  }

  // ----- the item that is not evicted -----

  lemma LoadAfter(s: State, t: State, q: Queue, r: Ref)
    requires Inv(s) && r in QueueOf(s, q) && r in s.items && r in t.items && t.items[r].size == s.items[r].size
    requires OthersSame(s, t, r)
    ensures QueueOf(t, q) == QueueOf(s, q) ==> SumSeq(t.items, QueueOf(t, q)) == SumSeq(s.items, QueueOf(s, q))
    ensures QueueOf(t, q) == Without(QueueOf(s, q), r) ==>
      SumSeq(t.items, QueueOf(t, q)) + s.items[r].size == SumSeq(s.items, QueueOf(s, q))
  {
    var xs := QueueOf(s, q);
    DistinctQueue(s, q);
    hide Inv, SumSeq, Distinct, Without;
    forall x | x in xs
      ensures x in s.items && SizeOf(s.items, x) == SizeOf(t.items, x)
    {
      QueueItem(s, q, x);
    }
    SumSeqSame(s.items, t.items, xs);
    SumSeqWithout(s.items, xs, r);
    WithoutIn(xs, r);
    SumSeqSame(s.items, t.items, Without(xs, r));
  }

  lemma Settles(s0: State, s: State, t: State, q: Queue, r: Ref, p: Pull, flushed: bool)
    requires Inv(s) && r in QueueOf(s, q) && r in s.items && r in s0.items && s.items[r] == s0.items[r]
    requires s.items[r].linked && s.items[r].queue == q
    requires OtherQueuesSame(s0, s, q) && OthersSame(s, t, r) && !(s.items[r].active && q.lru == Warm)
    requires Pulls(s, t, q, r, p.(flushed := flushed))
    ensures Settled(s0, t, q, r, p)
  {
    hide Inv, SumSeq, QueueOf, Without, OverShare, Age;
    LoadAfter(s, t, q, r);
    OverSame(q.lru, p, flushed);
  }

  lemma OverSame(lru: Lru, p: Pull, flushed: bool)
    ensures forall load: nat :: OverShare(load, lru, p.(flushed := flushed)) <==> OverShare(load, lru, p)
  {}

  lemma SameDead(s0: State, s: State, q: Queue, p: Pull, flushed: set<Ref>, r: Ref)
    requires Inv(s0) && Inv(s) && OnlyDeadOrEvicted(s0, s, q, p, flushed) && r in s.items && s.items[r].linked
    ensures WasDead(s0, r, p, flushed) <==> Dead(s.items[r], p.(flushed := r in flushed))
    ensures r in s0.items && s.items[r].key in s.table && s.table[s.items[r].key] == r
    ensures s.items[r].key in s0.table && s0.table[s.items[r].key] == r && s0.items[r].key == s.items[r].key
  {
    hide Inv;
    TableFacts(s, r);
    TableKey(s0, s.items[r].key);
    assert SameExptime(s0, s, s.table[s.items[r].key]);
  }

  /**
    A cold queue that is asked to evict: the item leaves the table and its queue,
    dead or alive, and a live one ends the walk.
   */
  lemma ColdPull(s: State, q: Queue, r: Ref, p: Pull)
    requires Inv(s) && Evicts(q, p) && r in QueueOf(s, q) && r in s.items && s.items[r].refs > 0
    requires s.items[r].linked && s.items[r].queue == q
    ensures var one := PullOne(s, q, r, p);
      && one.state.table == s.table - {s.items[r].key} && QueueOf(one.state, q) == Without(QueueOf(s, q), r)
      && (one.stop <==> !Dead(s.items[r], p))
  {
    hide Inv, Without;
    UnlinkAfterIncr(s, r);
  }

  lemma NothingGone(s: State, q: Queue, p: Pull, flushed: set<Ref>)
    requires Inv(s)
    ensures OnlyDeadOrEvicted(s, s, q, p, flushed)
  {
    forall k | k in s.table ensures SameExptime(s, s, s.table[k]) {
      TableKey(s, k);
    }
    hide Inv;
  }

  lemma GoneByPull(s0: State, s: State, q: Queue, r: Ref, p: Pull, flushed: set<Ref>)
    requires Inv(s) && r in QueueOf(s, q) && OnlyDeadOrEvicted(s0, s, q, p, flushed)
    ensures r in s.items && s.items[r].refs > 0
    ensures OnlyDeadOrEvicted(s0, PullOne(s, q, r, p.(flushed := r in flushed)).state, q, p, flushed)
  {
    hide Inv, PullOne, QueueOf;
    var pull := p.(flushed := r in flushed);
    QueueItem(s, q, r);
    RefFacts(s, r);
    PullTable(s, q, r, pull);
    PullTouches(s, q, r, pull);
    TableFacts(s, r);
    PullKeeps(s, q, r, pull);
    var t := PullOne(s, q, r, pull).state;
    forall k | k in t.table
      ensures SameExptime(s0, t, t.table[k])
    {
      TableKey(t, k);
      assert SameExptime(s0, s, s.table[k]);
    }
    forall k | k in s0.table && k !in t.table
      ensures Evicts(q, p) || WasDead(s0, s0.table[k], p, flushed)
    {
      if k in s.table {
        assert SameExptime(s0, s, r);
      }
    }
  }

  lemma PullCount(s: State, q: Queue, r: Ref, p: Pull)
    requires r in s.items && s.items[r].refs > 0
    ensures PullOne(s, q, r, p).removed <= 1
  {
    hide GiveUp, Requeue, Unlink, UpdateNolock, Limit, Let, Remove;
  }

  // ----- one round of the walk -----

  /** At a place of the original queue. */
  lemma WalkHere(s0: State, s: State, q: Queue, p: Pull, locked: set<Ref>, flushed: set<Ref>, i: int, d: nat,
                 tries: nat, r: Ref) returns (e: nat)
    requires Inv(s0) && Inv(s) && Walked(s0, s, q, p, locked, flushed, i, d, tries, Some(r)) && i >= 0
    requires tries > 0 && r !in locked && r in QueueOf(s, q) && r in s.items && s.items[r].refs > 0
    requires OnlyDeadOrEvicted(s0, s, q, p, flushed) && Distinct(QueueOf(s, q))
    ensures var one := PullOne(s, q, r, p.(flushed := r in flushed));
      if one.stop then
        && (Evicts(q, p) ==> EvictsTail(s0, one.state, q, p, locked, flushed))
        && SettlesTail(s0, one.state, q, p, locked, flushed) && ReclaimsTail(s0, one.state, q, p, locked, flushed)
      else Walked(s0, one.state, q, p, locked, flushed, i - 1, e, tries - 1, BeforeOf(QueueOf(s, q), r))
  {
    hide Inv, PullOne, OnlyDeadOrEvicted, EvictsTail, Walked, QueueOf, MovesToHead, SameOrder, Settled, Choice, WasDead,
         Distinct, ReclaimsTail;
    var pull := p.(flushed := r in flushed);
    var t := PullOne(s, q, r, pull).state;
    e := d;
    QueueItem(s, q, r);
    SameDead(s0, s, q, p, flushed, r);
    PullTouches(s, q, r, pull);
    AheadSame(s0, s, t, q, p, locked, flushed, i, d, tries, r);
    if Dead(s.items[r], pull) {
      DeadPull(s, q, r, pull);
      WalkReclaims(s0, s, t, q, p, locked, flushed, i, d, tries, r);
    } else if Evicts(q, p) {
      ColdPull(s, q, r, pull);
      StopReclaims(s0, s, t, q, p, locked, flushed, i, d, tries, r);
      WalkEvicts(s0, s, t, q, p, locked, flushed, i, d, tries, r);
    } else {
      PullMoves(s, q, r, pull);
      if s.items[r].active && q.lru == Warm {
        e := WalkRefreshes(s0, s, t, q, p, locked, flushed, i, d, tries, r);
      } else {
        WalkOthers(s0, s, q, p, locked, flushed, i, d, tries, r);
        StopReclaims(s0, s, t, q, p, locked, flushed, i, d, tries, r);
        Settles(s0, s, t, q, r, p, r in flushed);
      }
    }
  }

  lemma StopReclaims(s0: State, s: State, t: State, q: Queue, p: Pull, locked: set<Ref>, flushed: set<Ref>, i: int,
                     d: nat, tries: nat, r: Ref)
    requires Walked(s0, s, q, p, locked, flushed, i, d, tries, Some(r)) && NoNewKeys(s, t)
    requires i >= 0 ==> !Passed(s0, r, q, p, locked, flushed)
    ensures ReclaimsTail(s0, t, q, p, locked, flushed)
  {
    hide Passed, Choice;
    if i >= 0 {
      assert QueueOf(s0, q)[..i + 1][i] == r;
    }
  }

  /** What stops the walk is the item it looked for. */
  lemma WalkOthers(s0: State, s: State, q: Queue, p: Pull, locked: set<Ref>, flushed: set<Ref>, i: int, d: nat,
                   tries: nat, r: Ref)
    requires Walked(s0, s, q, p, locked, flushed, i, d, tries, Some(r)) && i >= 0 && tries > 0
    requires !Passed(s0, r, q, p, locked, flushed)
    ensures OtherQueuesSame(s0, s, q) && Choice(s0, QueueOf(s0, q), 5, q, p, locked, flushed) == Some(r)
  {
    hide Passed;
    assert QueueOf(s0, q)[..i + 1][i] == r;
  }

  lemma WalkPulls(s0: State, s: State, q: Queue, p: Pull, locked: set<Ref>, flushed: set<Ref>, i: int, d: nat,
                  tries: nat, r: Ref) returns (i': int, e: nat)
    requires Inv(s0) && Inv(s) && Walked(s0, s, q, p, locked, flushed, i, d, tries, Some(r))
    requires tries > 0 && r !in locked && r in QueueOf(s, q) && r in s.items && s.items[r].refs > 0
    requires OnlyDeadOrEvicted(s0, s, q, p, flushed) && Distinct(QueueOf(s, q))
    ensures var one := PullOne(s, q, r, p.(flushed := r in flushed));
      if one.stop then
        && EvictsTail(s0, one.state, q, p, locked, flushed) && SettlesTail(s0, one.state, q, p, locked, flushed)
        && ReclaimsTail(s0, one.state, q, p, locked, flushed)
      else Walked(s0, one.state, q, p, locked, flushed, i', e, tries - 1, BeforeOf(QueueOf(s, q), r))
  {
    hide Inv, PullOne, OnlyDeadOrEvicted, EvictsTail, SettlesTail, ReclaimsTail, Walked, QueueOf, Distinct, BeforeOf;
    var t := PullOne(s, q, r, p.(flushed := r in flushed)).state;
    i', e := i, d;
    GoneByPull(s0, s, q, r, p, flushed);
    if i >= 0 {
      e := WalkHere(s0, s, q, p, locked, flushed, i, d, tries, r);
      i' := i - 1;
    } else {
      PullTable(s, q, r, p.(flushed := r in flushed));
      StopReclaims(s0, s, t, q, p, locked, flushed, i, d, tries, r);
      WalkBeyond(s0, s, t, q, p, locked, flushed, i, d, tries, r, BeforeOf(QueueOf(s, q), r));
    }
    if !Evicts(q, p) {
      OnlyDeadEvicts(s0, t, q, p, locked, flushed);
    }
  }

  lemma WalkBeyond(s0: State, s: State, t: State, q: Queue, p: Pull, locked: set<Ref>, flushed: set<Ref>, i: int,
                   d: nat, tries: nat, r: Ref, next: Option<Ref>)
    requires Walked(s0, s, q, p, locked, flushed, i, d, tries, Some(r)) && i < 0 && tries > 0
    requires ReclaimsTail(s0, t, q, p, locked, flushed)
    ensures !Evicts(q, p) && SettlesTail(s0, t, q, p, locked, flushed)
    ensures Walked(s0, t, q, p, locked, flushed, i, d, tries - 1, next)
  {}

  lemma OnlyDeadEvicts(s0: State, t: State, q: Queue, p: Pull, locked: set<Ref>, flushed: set<Ref>)
    requires OnlyDeadOrEvicted(s0, t, q, p, flushed) && !Evicts(q, p)
    ensures EvictsTail(s0, t, q, p, locked, flushed)
  {}
}
