/** The free list and the bucket lists share the one next pointer that a page has. */
module ExtstoreLinks {
  import opened ExtstoreTypes
  import opened ExtstoreSteps
  import opened ExtstoreInvariant

  /** Following next from head visits exactly the pages of list, in order. */
  ghost predicate Chain(next: seq<Option<nat>>, head: Option<nat>, list: seq<nat>) {
    && head == First(list)
    && forall i :: 0 <= i < |list| ==> list[i] < |next| && next[list[i]] == First(list[i + 1..])
  }

  function First(list: seq<nat>): Option<nat> {
    if list == [] then None else Some(list[0])
  }

  ghost predicate Linked(s: State, next: seq<Option<nat>>, freeHead: Option<nat>, heads: seq<Option<nat>>) {
    && |next| == |s.pages| && |heads| == |s.buckets|
    && Chain(next, freeHead, s.freelist)
    && forall b :: 0 <= b < |heads| ==> Chain(next, heads[b], s.buckets[b])
  }

  lemma ChainElsewhere(next: seq<Option<nat>>, head: Option<nat>, list: seq<nat>, p: nat, x: Option<nat>)
    requires Chain(next, head, list) && p < |next| && p !in list
    ensures Chain(next[p := x], head, list)
  {}

  lemma ChainPush(next: seq<Option<nat>>, head: Option<nat>, list: seq<nat>, p: nat)
    requires Chain(next, head, list) && p < |next| && p !in list
    ensures Chain(next[p := head], Some(p), [p] + list)
  {
    var l, n := [p] + list, next[p := head];
    assert l[1..] == list;
    forall i | 0 <= i < |l|
      ensures n[l[i]] == First(l[i + 1..])
    {
      if i > 0 {
        assert l[i] == list[i - 1] && l[i + 1..] == list[i..];
      }
    }
  }

  lemma ChainPop(next: seq<Option<nat>>, head: Option<nat>, list: seq<nat>)
    requires Chain(next, head, list) && list != []
    ensures list[0] < |next| && Chain(next, next[list[0]], list[1..])
  {
    var l := list[1..];
    forall i | 0 <= i < |l|
      ensures next[l[i]] == First(l[i + 1..])
    {
      assert l[i] == list[i + 1] && l[i + 1..] == list[i + 2..];
    }
  }

  /** Cutting the k-th page out, from the head or from its predecessor. */
  lemma ChainCut(next: seq<Option<nat>>, head: Option<nat>, list: seq<nat>, k: nat)
    requires Chain(next, head, list) && k < |list| && Distinct(list)
    ensures list[k] < |next| && (k > 0 ==> list[k - 1] < |next|)
    ensures Chain(if k > 0 then next[list[k - 1] := next[list[k]]] else next, if k > 0 then head else next[list[k]],
                  list[..k] + list[k + 1..])
  {
    if k == 0 {
      ChainPop(next, head, list);
      assert list[..0] + list[1..] == list[1..];
    } else {
      var n, l := next[list[k - 1] := next[list[k]]], list[..k] + list[k + 1..];
      forall i | 0 <= i < |l|
        ensures n[l[i]] == First(l[i + 1..])
      {
        if i < k - 1 {
          assert l[i] == list[i] && l[i + 1] == list[i + 1];
        } else if i == k - 1 {
          assert l[k..] == list[k + 1..];
        } else {
          assert l[i] == list[i + 1] && l[i + 1..] == list[i + 2..];
        }
      }
    }
  }

  lemma ListFacts(s: State, b: nat)
    requires Inv(s) && b < |s.buckets|
    ensures Distinct(s.freelist) && Distinct(s.buckets[b])
    ensures forall p: nat :: p in s.freelist <==> 0 < p < |s.pages| && s.pages[p].free
    ensures forall p: nat :: p in s.buckets[b] <==> p < |s.pages| && !s.pages[p].free && s.pages[p].bucket == b
  {
    assert BucketOk(s, b);
  }

  /** _allocate_page moves the head of the free list to the head of the bucket with two pointer writes. */
  lemma TakeLinked(s: State, next: seq<Option<nat>>, freeHead: Option<nat>, heads: seq<Option<nat>>, b: nat)
    requires Inv(s) && Linked(s, next, freeHead, heads) && b < |s.buckets| && s.pageFree > 0
    ensures CanTake(s)
    ensures var p := s.freelist[0];
      && p < |next| == |s.pages| && s.pages[p].free && freeHead == Some(p)
      && Linked(AllocatePage(s, b), next[p := heads[b]], next[p], heads[b := Some(p)])
  {
    hide Inv, Chain;
    TakeFacts(s);
    var p := s.freelist[0];
    FirstFree(s, next, freeHead);
    ChainPop(next, freeHead, s.freelist);
    assert Distinct(s.freelist) && p !in s.freelist[1..] by { ListFacts(s, b); }
    ChainElsewhere(next, next[p], s.freelist[1..], p, heads[b]);
    var t := AllocatePage(s, b);
    forall c | 0 <= c < |heads|
      ensures Chain(next[p := heads[b]], heads[b := Some(p)][c], t.buckets[c])
    {
      assert p !in s.buckets[c] by { ListFacts(s, c); }
      if c == b {
        ChainPush(next, heads[b], s.buckets[b], p);
      } else {
        ChainElsewhere(next, heads[c], s.buckets[c], p, heads[b]);
      }
    }
  }

  lemma FirstFree(s: State, next: seq<Option<nat>>, freeHead: Option<nat>)
    requires Inv(s) && Chain(next, freeHead, s.freelist) && s.freelist != [] && |s.buckets| > 0
    ensures freeHead == Some(s.freelist[0]) && s.freelist[0] < |s.pages| && s.pages[s.freelist[0]].free
  {
    hide Inv;
    ListFacts(s, 0);
    assert s.freelist[0] in s.freelist;
  }

  function CutNext(next: seq<Option<nat>>, list: seq<nat>, k: nat): seq<Option<nat>>
    requires k < |list| && list[k] < |next| && (k > 0 ==> list[k - 1] < |next|)
  {
    if k > 0 then next[list[k - 1] := next[list[k]]] else next
  }

  function CutHeads(next: seq<Option<nat>>, heads: seq<Option<nat>>, b: nat, list: seq<nat>, k: nat): seq<Option<nat>>
    requires b < |heads| && k < |list| && list[k] < |next|
  {
    if k > 0 then heads else heads[b := next[list[k]]]
  }

  /** The k-th page of its bucket list leaves it and becomes the head of the free list. */
  lemma ReleaseLinked(s: State, next: seq<Option<nat>>, freeHead: Option<nat>, heads: seq<Option<nat>>, p: nat, k: nat)
    requires Inv(s) && Linked(s, next, freeHead, heads) && p < |s.pages| && !s.pages[p].free
    requires s.pages[p].bucket < |s.buckets|
    requires k < |s.buckets[s.pages[p].bucket]| && s.buckets[s.pages[p].bucket][k] == p
    requires var list := s.buckets[s.pages[p].bucket];
      RemoveFrom(list, p) == list[..k] + list[k + 1..]
    ensures var b := s.pages[p].bucket; var list := s.buckets[b];
      && (k > 0 ==> list[k - 1] < |next|)
      && Linked(FreePage(s, p), CutNext(next, list, k)[p := freeHead], Some(p), CutHeads(next, heads, b, list, k))
  {
    hide Inv, Chain;
    var b := s.pages[p].bucket;
    var list := s.buckets[b];
    var t := FreePage(s, p);
    ChainCut(next, heads[b], list, k) by { ListFacts(s, b); }
    var n := CutNext(next, list, k);
    ReleaseFree(s, next, freeHead, p, k);
    forall c | 0 <= c < |heads|
      ensures Chain(n[p := freeHead], CutHeads(next, heads, b, list, k)[c], t.buckets[c])
    {
      if c == b {
        assert p !in t.buckets[b] by { ListFacts(s, b); }
        ChainElsewhere(n, CutHeads(next, heads, b, list, k)[b], t.buckets[b], p, freeHead);
      } else {
        ReleaseOther(s, next, heads[c], p, k, c);
        ChainElsewhere(n, heads[c], s.buckets[c], p, freeHead);
      }
    }
  }

  lemma ReleaseFree(s: State, next: seq<Option<nat>>, freeHead: Option<nat>, p: nat, k: nat)
    requires Inv(s) && Chain(next, freeHead, s.freelist) && p < |s.pages| == |next| && !s.pages[p].free
    requires s.pages[p].bucket < |s.buckets|
    requires var list := s.buckets[s.pages[p].bucket]; k < |list| && list[k] == p && (k > 0 ==> list[k - 1] < |next|)
    ensures Chain(CutNext(next, s.buckets[s.pages[p].bucket], k)[p := freeHead], Some(p), [p] + s.freelist)
  {
    hide Inv, Chain;
    var list := s.buckets[s.pages[p].bucket];
    ListFacts(s, s.pages[p].bucket);
    if k > 0 {
      assert list[k - 1] in list && list[k - 1] !in s.freelist;
      ChainElsewhere(next, freeHead, s.freelist, list[k - 1], next[p]);
    }
    ChainPush(CutNext(next, list, k), freeHead, s.freelist, p);
  }

  lemma ReleaseOther(s: State, next: seq<Option<nat>>, head: Option<nat>, p: nat, k: nat, c: nat)
    requires Inv(s) && c < |s.buckets| && Chain(next, head, s.buckets[c]) && p < |s.pages| == |next|
    requires !s.pages[p].free && s.pages[p].bucket < |s.buckets| && s.pages[p].bucket != c
    requires var list := s.buckets[s.pages[p].bucket]; k < |list| && list[k] == p && (k > 0 ==> list[k - 1] < |next|)
    ensures Chain(CutNext(next, s.buckets[s.pages[p].bucket], k), head, s.buckets[c]) && p !in s.buckets[c]
  {
    hide Inv, Chain;
    var list := s.buckets[s.pages[p].bucket];
    ListFacts(s, s.pages[p].bucket);
    ListFacts(s, c);
    if k > 0 {
      assert list[k - 1] in list && list[k - 1] !in s.buckets[c];
      ChainElsewhere(next, head, s.buckets[c], list[k - 1], next[p]);
    }
  }

  lemma LinkedSize(s: State, next: seq<Option<nat>>, freeHead: Option<nat>, heads: seq<Option<nat>>)
    requires Linked(s, next, freeHead, heads)
    ensures |next| == |s.pages| && |heads| == |s.buckets|
    ensures forall b :: 0 <= b < |heads| ==> Chain(next, heads[b], s.buckets[b])
  {}

  /** Page p went from the head of the free list to the head of bucket b, and no record has its version. */
  ghost predicate Taken(s: State, t: State, b: nat, p: nat) {
    && p < |s.pages| == |t.pages| && b < |s.buckets| == |t.buckets|
    && s.freelist == [p] + t.freelist && t.buckets[b] == [p] + s.buckets[b]
    && s.pages[p].free && !t.pages[p].free && t.pages[p].bucket == b
    && forall r :: r in t.log ==> r.version < t.pages[p].version
  }

  lemma PageTaken(s: State, b: nat)
    requires Inv(s) && s.pageFree > 0 && b < |s.buckets|
    ensures CanTake(s) && Taken(s, AllocatePage(s, b), b, s.freelist[0])
  {
    TakeFacts(s);
    ListFacts(s, b);
    assert s.freelist[0] in s.freelist;
  }

  predicate CanTake(s: State) {
    s.pageFree > 0 && s.freelist != [] && s.freelist[0] < |s.pages|
  }

  lemma TakeFacts(s: State)
    requires Inv(s)
    ensures s.pageFree > 0 ==> CanTake(s)
    ensures forall r :: r in s.log ==> r.version < s.version
  {
    if s.freelist != [] {
      assert s.freelist[0] in s.freelist;
    }
  }

  lemma ChainHead(next: seq<Option<nat>>, head: Option<nat>, list: seq<nat>)
    requires Chain(next, head, list) && list != []
    ensures head == Some(list[0])
  {}

  /** A walk that has not met p yet goes on to the next page. */
  lemma WalkOn(next: seq<Option<nat>>, head: Option<nat>, list: seq<nat>, p: nat, k: nat)
    requires Chain(next, head, list) && k < |list| && p in list[k..] && list[k] != p
    ensures k + 1 < |list| && list[k] < |next| && next[list[k]] == Some(list[k + 1]) && p in list[k + 1..]
  {
    assert list[k..] == [list[k]] + list[k + 1..];
  }

  lemma ChainNil(next: seq<Option<nat>>)
    ensures Chain(next, None, [])
  {}

  lemma InitLinked(cfg: Config, next: seq<Option<nat>>, head: Option<nat>, list: seq<nat>)
    requires cfg.Valid() && |next| == cfg.pageCount && Chain(next, head, list)
    requires list == seq(cfg.pageCount - 1, j requires 0 <= j => 1 + j)
    ensures Linked(Init(cfg), next, head, Copies(cfg.bucketCount, None))
  {
    assert Init(cfg).freelist == list;
  }

  lemma LinkedSame(s: State, t: State, next: seq<Option<nat>>, freeHead: Option<nat>, heads: seq<Option<nat>>)
    requires Linked(s, next, freeHead, heads) && t.freelist == s.freelist && t.buckets == s.buckets
    requires |t.pages| == |s.pages|
    ensures Linked(t, next, freeHead, heads)
  {}

  lemma HeadIs(s: State, next: seq<Option<nat>>, freeHead: Option<nat>, heads: seq<Option<nat>>, b: nat)
    requires Linked(s, next, freeHead, heads) && b < |s.buckets|
    ensures b < |heads| && heads[b] == First(s.buckets[b])
  {
    assert Chain(next, heads[b], s.buckets[b]);
  }
}
