/** The invariant of the page store holds over every run. */
module ExtstoreProofs {
  import opened ExtstoreTypes
  import opened ExtstoreSteps
  import opened ExtstoreInvariant

  // ----- small facts -----

  lemma AttachedUpdate(s: State, t: State, p: nat)
    requires p < |s.pages| && |t.pages| == |s.pages|
    requires t.pages == s.pages[p := t.pages[p]]
    ensures Attached(t) == if t.pages[p].wbuf.Some? then Attached(s) + {p} else Attached(s) - {p}
  {
    assert forall q: nat :: q < |s.pages| && q != p ==> t.pages[q] == s.pages[q];
  }

  lemma {:induction false} RemoveFromContents(l: seq<nat>, p: nat)
    requires Distinct(l)
    ensures Distinct(RemoveFrom(l, p))
    ensures forall q :: q in RemoveFrom(l, p) <==> q in l && q != p
  {
    if l != [] {
      var t := l[1..];
      assert Distinct(t) && l[0] !in t by {
        assert forall i, j :: 0 <= i < j < |t| ==> t[i] == l[i + 1] && t[j] == l[j + 1];
        assert forall i :: 0 <= i < |t| ==> t[i] == l[i + 1];
      }
      RemoveFromContents(t, p);
      assert l == [l[0]] + t;
    }
  }

  lemma {:induction false} RemoveFromTail(l: seq<nat>, p: nat, i: nat)
    requires 0 < i < |RemoveFrom(l, p)|
    ensures exists j :: 0 < j < |l| && l[j] == RemoveFrom(l, p)[i]
  {
    if l[0] == p {
      assert l[i + 1] == RemoveFrom(l, p)[i];
    } else {
      var r := RemoveFrom(l[1..], p);
      assert RemoveFrom(l, p)[i] == r[i - 1];
      if i == 1 {
        RemoveFromHead(l[1..], p);
        var j :| 0 <= j < |l[1..]| && l[1..][j] == r[0];
        assert l[j + 1] == r[0];
      } else {
        RemoveFromTail(l[1..], p, i - 1);
        var j :| 0 < j < |l[1..]| && l[1..][j] == r[i - 1];
        assert l[j + 1] == r[i - 1];
      }
    }
  }

  lemma {:induction false} RemoveFromHead(l: seq<nat>, p: nat)
    requires RemoveFrom(l, p) != []
    ensures exists j :: 0 <= j < |l| && l[j] == RemoveFrom(l, p)[0]
    ensures l != [] && RemoveFrom(l, p)[0] == if l[0] == p then l[1] else l[0]
  {
    if l[0] == p {
      assert l[1] == RemoveFrom(l, p)[0];
    } else {
      assert l[0] == RemoveFrom(l, p)[0];
    }
  }

  lemma {:induction false} Multiples(q: nat, k: nat)
    requires k > 0
    ensures q * k >= 0 && Multiple(q * k, k)
  {
    if q > 0 {
      assert q * k - k == (q - 1) * k;
      Multiples(q - 1, k);
    }
  }

  lemma WholeBuffers(n: nat, k: nat)
    requires k > 0 && n % k == 0
    ensures Multiple(n, k)
  {
    DivMod(n, k);
    Multiples(n / k, k);
  }

  lemma DivMod(n: nat, k: nat)
    requires k > 0
    ensures n == (n / k) * k + n % k
  {}

  // ----- the asserts of the source -----

  /**
    No assertion of extstore.c fails and no stack it pops is empty, except in a read
    of no bytes at the end of a buffer.
   */
  lemma AssertsHold(s: State, a: Action)
    requires Inv(s) && Enabled(s, a)
    ensures Asserts(s, a) <==> !EmptyAtEnd(s, a)
  {
    if a.Pick? || a.Check? || a.Retry? || a.Commit? {
      WriterAsserts(s, a);
    } else if a.Pwrite? || a.Flushed? {
      FlushAsserts(s, a);
    } else if a.ReadBegin? || a.Pread? || a.ReadEnd? {
      ReadAsserts(s, a);
    } else {
      MaintAsserts(s, a);
    }
  }

  lemma WriterAsserts(s: State, a: Action)
    requires Inv(s) && Enabled(s, a) && (a.Pick? || a.Check? || a.Retry? || a.Commit?)
    ensures Asserts(s, a)
  {
    hide PagesOk, ListsOk, TailsFull, PendingOk, StacksOk, LogOk, ReadersOk, MaintOk, DeliveredOk;
    FreelistHead(s);
    if a.Check? {
      var p := s.writers[a.b].page;
      if !PageFull(s, s.pages[p]) && MustSubmit(s, s.pages[p], a.len) {
        SubmitHasIo(s, p);
      }
    }
  }

  lemma FlushAsserts(s: State, a: Action)
    requires Inv(s) && Enabled(s, a) && (a.Pwrite? || a.Flushed?)
    ensures Asserts(s, a)
  {
    hide ListsOk, TailsFull, WritersOk, StacksOk, LogOk, ReadersOk, MaintOk, DeliveredOk;
    assert PageOk(s.cfg, s.version, s.pages[a.p]);
    assert FlushOk(s.cfg, s.pages[a.p], s.file[a.p], PendingAt(s, a.p));
  }

  lemma ReadAsserts(s: State, a: Action)
    requires Inv(s) && Enabled(s, a) && (a.ReadBegin? || a.Pread? || a.ReadEnd?)
    ensures Asserts(s, a) <==> !EmptyAtEnd(s, a)
  {
    hide ListsOk, TailsFull, WritersOk, PendingOk, StacksOk, MaintOk, DeliveredOk;
    if a.ReadBegin? {
      assert RecordOk(s, a.rec);
      assert PageOk(s.cfg, s.version, s.pages[a.rec.page]);
    } else {
      assert a.id in ReadsOf(s, s.readers[a.id].rec.page);
    }
  }

  lemma MaintAsserts(s: State, a: Action)
    requires Inv(s) && Enabled(s, a)
    requires (a.Delete? || a.Close? || a.MaintWake? || a.MaintLook? || a.MaintVisit? || a.MaintEvict?)
    ensures Asserts(s, a)
  {
    hide ListsOk, TailsFull, WritersOk, PendingOk, StacksOk, LogOk, ReadersOk, DeliveredOk;
    if a.MaintVisit? {
      assert PageOk(s.cfg, s.version, s.pages[s.maint.next]);
    } else if a.MaintEvict? && s.maint.low.Some? {
      assert PageOk(s.cfg, s.version, s.pages[s.maint.low.value]);
    }
  }

  lemma FreelistHead(s: State)
    requires Inv(s)
    ensures s.pageFree > 0 ==> s.freelist != [] && 0 < s.freelist[0] < |s.pages| && s.pages[s.freelist[0]].free
  {
    if s.pageFree > 0 {
      assert s.freelist[0] in s.freelist;
    }
  }

  /** A buffer that is not yet submitted leaves an I/O entry on the stack. */
  lemma SubmitHasIo(s: State, p: nat)
    requires Inv(s) && p < |s.pages| && s.pages[p].wbuf.Some? && !s.pages[p].wbuf.value.full
    ensures s.ios > 0
  {
    forall q | q in s.pending
      ensures q in Attached(s) - {p}
    {
      assert FlushOk(s.cfg, s.pages[q], s.file[q], PendingAt(s, q));
    }
    Subset(s.pending.Keys, Attached(s) - {p});
    assert p in Attached(s);
  }

  lemma {:induction false} Subset<T>(a: set<T>, b: set<T>)
    requires a <= b
    ensures |a| <= |b|
  {
    if a != {} {
      var x :| x in a;
      Subset(a - {x}, b - {x});
    }
  }

  // ----- steps that leave the layout of every page alone -----

  predicate SameLayout(pg: Page, qg: Page) {
    pg.version == qg.version && pg.reserved == qg.reserved && pg.written == qg.written && pg.bucket == qg.bucket
    && pg.active == qg.active && pg.free == qg.free && pg.wbuf == qg.wbuf
  }

  /** t differs from s only in reference counts, use counts, closed marks, reads, results and the scan. */
  ghost predicate LayoutKept(s: State, t: State) {
    && t.cfg == s.cfg && t.file == s.file && t.freelist == s.freelist && t.pageFree == s.pageFree
    && t.buckets == s.buckets && t.version == s.version && t.wbufs == s.wbufs && t.ios == s.ios
    && t.pending == s.pending && t.writers == s.writers && t.log == s.log
    && |t.pages| == |s.pages|
    && (forall p :: 0 <= p < |s.pages| ==> SameLayout(s.pages[p], t.pages[p]))
    && (forall p :: 0 <= p < |s.pages| && s.pages[p].free ==>
          t.pages[p].refcount == s.pages[p].refcount && t.pages[p].objCount <= s.pages[p].objCount)
  }

  lemma LayoutKeepsShape(s: State, t: State)
    requires Shape(s) && LayoutKept(s, t)
    ensures Shape(t)
  {}

  lemma LayoutKeepsPages(s: State, t: State)
    requires Shape(s) && Shape(t) && LayoutKept(s, t) && PagesOk(s)
    ensures PagesOk(t)
  {
    forall p | 0 <= p < |t.pages|
      ensures PageOk(t.cfg, t.version, t.pages[p])
    {
      assert PageOk(s.cfg, s.version, s.pages[p]) && SameLayout(s.pages[p], t.pages[p]);
    }
    assert SameLayout(s.pages[0], t.pages[0]);
  }

  lemma LayoutKeepsLists(s: State, t: State)
    requires Shape(s) && Shape(t) && LayoutKept(s, t) && ListsOk(s) && TailsFull(s)
    ensures ListsOk(t) && TailsFull(t)
  {
    forall p: nat
      ensures p in t.freelist <==> 0 < p < |t.pages| && t.pages[p].free
    {
      assert p < |s.pages| ==> SameLayout(s.pages[p], t.pages[p]);
    }
    forall b | 0 <= b < |t.buckets|
      ensures BucketOk(t, b)
    {
      assert BucketOk(s, b);
      assert forall p: nat :: p < |s.pages| ==> SameLayout(s.pages[p], t.pages[p]);
    }
  }

  lemma LayoutKeepsWriters(s: State, t: State)
    requires Shape(s) && Shape(t) && LayoutKept(s, t) && WritersOk(s)
    ensures WritersOk(t)
  {
    forall b | 0 <= b < |t.writers| && t.writers[b].Holding?
      ensures t.writers[b].page < |t.pages| && Granted(t, t.writers[b].page, t.writers[b].len)
    {
      assert Granted(s, s.writers[b].page, s.writers[b].len);
      assert SameLayout(s.pages[s.writers[b].page], t.pages[s.writers[b].page]);
    }
  }

  lemma LayoutKeepsPending(s: State, t: State)
    requires Shape(s) && Shape(t) && LayoutKept(s, t) && PendingOk(s) && StacksOk(s)
    ensures PendingOk(t) && StacksOk(t)
  {
    forall p | 0 <= p < |t.pages|
      ensures t.pages[p].wbuf == s.pages[p].wbuf && FlushOk(t.cfg, t.pages[p], t.file[p], PendingAt(t, p))
    {
      assert SameLayout(s.pages[p], t.pages[p]);
      assert FlushOk(s.cfg, s.pages[p], s.file[p], PendingAt(s, p));
    }
    assert Attached(t) == Attached(s);
  }

  lemma LayoutKeepsLog(s: State, t: State)
    requires Shape(s) && Shape(t) && LayoutKept(s, t) && LogOk(s)
    ensures LogOk(t)
  {
    forall r | r in t.log
      ensures RecordOk(t, r)
    {
      assert RecordOk(s, r) && SameLayout(s.pages[r.page], t.pages[r.page]);
    }
  }

  lemma LayoutKeeps(s: State, t: State)
    requires Inv(s) && LayoutKept(s, t)
    ensures Shape(t) && PagesOk(t) && ListsOk(t) && TailsFull(t) && WritersOk(t) && PendingOk(t) && StacksOk(t)
    ensures LogOk(t)
  {
    hide LayoutKept, Shape, PagesOk, ListsOk, TailsFull, WritersOk, PendingOk, StacksOk, LogOk, ReadersOk, MaintOk,
         DeliveredOk;
    LayoutKeepsShape(s, t);
    LayoutKeepsPages(s, t);
    LayoutKeepsLists(s, t);
    LayoutKeepsWriters(s, t);
    LayoutKeepsPending(s, t);
    LayoutKeepsLog(s, t);
  }

  // ----- steps on one page leave every other page alone -----

  ghost predicate OnlyPage(s: State, t: State, p: nat) {
    && t.cfg == s.cfg && |t.pages| == |s.pages| && |t.file| == |s.file|
    && p < |s.pages| && p < |s.file|
    && t.pages == s.pages[p := t.pages[p]]
    && t.file == s.file[p := t.file[p]]
    && (forall q :: 0 <= q < |s.pages| && q != p ==> PendingAt(t, q) == PendingAt(s, q))
    && s.version <= t.version
  }

  lemma FramePages(s: State, t: State, p: nat)
    requires Shape(s) && Shape(t) && OnlyPage(s, t, p) && PagesOk(s)
    requires PageOk(t.cfg, t.version, t.pages[p]) && (p == 0 ==> t.pages[p].free)
    ensures PagesOk(t)
  {
    forall q | 0 <= q < |t.pages|
      ensures PageOk(t.cfg, t.version, t.pages[q])
    {
      assert PageOk(s.cfg, s.version, s.pages[q]);
    }
  }

  lemma FramePending(s: State, t: State, p: nat)
    requires Shape(s) && Shape(t) && OnlyPage(s, t, p) && PendingOk(s)
    requires FlushOk(t.cfg, t.pages[p], t.file[p], PendingAt(t, p))
    ensures PendingOk(t)
  {
    hide FlushOk, PendingAt;
    forall q | 0 <= q < |t.pages|
      ensures FlushOk(t.cfg, t.pages[q], t.file[q], PendingAt(t, q))
    {
      assert FlushOk(s.cfg, s.pages[q], s.file[q], PendingAt(s, q));
    }
  }

  lemma FrameLog(s: State, t: State, p: nat)
    requires Shape(s) && Shape(t) && OnlyPage(s, t, p) && LogOk(s)
    requires forall r :: r in t.log && r !in s.log ==> r.page == p && 1 <= r.version < t.version
    requires forall r :: r in t.log && r.page == p ==> RecordOk(t, r)
    ensures LogOk(t)
  {
    forall r | r in t.log
      ensures 1 <= r.version < t.version && RecordOk(t, r)
    {
      if r.page != p {
        assert RecordOk(s, r);
      }
    }
  }

  /** Readers are untouched, and page p keeps what its readers rely on. */
  lemma FrameReaders(s: State, t: State, p: nat)
    requires Shape(s) && Shape(t) && OnlyPage(s, t, p) && ReadersOk(s)
    requires t.readers == s.readers && s.log <= t.log
    requires t.pages[p].refcount == s.pages[p].refcount
    requires ReadsOf(s, p) == {} || (!t.pages[p].free && t.pages[p].version == s.pages[p].version
                                     && s.pages[p].written <= t.pages[p].written <= t.cfg.pageSize)
    ensures ReadersOk(t)
  {
    forall id | id in t.readers
      ensures var rec := t.readers[id].rec;
        rec in t.log && !t.pages[rec.page].free && t.pages[rec.page].version == rec.version
        && rec.offset + |rec.bytes| <= t.pages[rec.page].written <= t.cfg.pageSize
    {
      assert id in ReadsOf(s, s.readers[id].rec.page);
    }
    forall q | 0 <= q < |t.pages|
      ensures t.pages[q].refcount == |ReadsOf(t, q)|
    {
      assert ReadsOf(t, q) == ReadsOf(s, q);
    }
  }

  // ----- _allocate_page -----

  ghost predicate CanAllocate(s: State, b: nat) {
    && Inv(s) && s.pageFree > 0 && b < |s.buckets| && s.writers[b].Idle? && HeadFull(s, b)
    && s.freelist != [] && 0 < s.freelist[0] < |s.pages| && s.pages[s.freelist[0]].free
  }

  lemma AllocatePages(s: State, b: nat)
    requires CanAllocate(s, b)
    ensures var t := AllocatePage(s, b); Shape(t) && PagesOk(t)
  {
    hide ListsOk, TailsFull, WritersOk, PendingOk, StacksOk, LogOk, ReadersOk, MaintOk, DeliveredOk;
    var t := AllocatePage(s, b);
    WholeBuffers(s.cfg.pageSize, s.cfg.wbufSize);
    forall q | 0 <= q < |t.pages|
      ensures PageOk(t.cfg, t.version, t.pages[q])
    {
      assert PageOk(s.cfg, s.version, s.pages[q]);
    }
  }

  lemma AllocateLists(s: State, b: nat)
    requires CanAllocate(s, b)
    ensures var t := AllocatePage(s, b); Shape(t) && ListsOk(t)
  {
    hide PagesOk, TailsFull, WritersOk, PendingOk, StacksOk, LogOk, ReadersOk, MaintOk, DeliveredOk;
    var t := AllocatePage(s, b);
    var p := s.freelist[0];
    assert s.freelist == [p] + t.freelist;
    assert Distinct(t.freelist) && p !in t.freelist;
    forall q: nat
      ensures q in t.freelist <==> 0 < q < |t.pages| && t.pages[q].free
    {
      assert q in s.freelist <==> q == p || q in t.freelist;
    }
    forall c | 0 <= c < |t.buckets|
      ensures BucketOk(t, c)
    {
      assert BucketOk(s, c);
    }
  }

  lemma AllocateTails(s: State, b: nat)
    requires CanAllocate(s, b)
    ensures var t := AllocatePage(s, b); Shape(t) && TailsFull(t)
  {
    hide PagesOk, WritersOk, PendingOk, StacksOk, LogOk, ReadersOk, MaintOk, DeliveredOk;
    var t := AllocatePage(s, b);
    forall c, i | 0 <= c < |t.buckets| && 0 < i < |t.buckets[c]|
      ensures t.buckets[c][i] < |t.pages| && t.pages[t.buckets[c][i]].reserved == t.cfg.pageSize
    {
      var j := if c == b then i - 1 else i;
      assert t.buckets[c][i] == s.buckets[c][j];
      assert BucketOk(s, c) && s.buckets[c][j] in s.buckets[c];
    }
  }

  lemma AllocateRest(s: State, b: nat)
    requires CanAllocate(s, b)
    ensures var t := AllocatePage(s, b); Shape(t) && WritersOk(t) && MaintOk(t) && DeliveredOk(t)
  {
    hide PendingOk, StacksOk, LogOk, ReadersOk;
    var t := AllocatePage(s, b);
    var p := s.freelist[0];
    assert PageOk(s.cfg, s.version, s.pages[p]);
    forall c | 0 <= c < |t.writers| && t.writers[c].Holding?
      ensures t.writers[c].page < |t.pages| && Granted(t, t.writers[c].page, t.writers[c].len)
    {
      assert Granted(s, s.writers[c].page, s.writers[c].len);
    }
    forall c | 0 <= c < |t.writers| && !t.writers[c].Idle?
      ensures t.buckets[c] == s.buckets[c] && (HeadFull(s, c) ==> HeadFull(t, c))
    {
      if s.buckets[c] != [] {
        assert BucketOk(s, c) && s.buckets[c][0] in s.buckets[c];
      }
    }
  }

  lemma AllocateFrame(s: State, b: nat)
    requires CanAllocate(s, b)
    ensures var t := AllocatePage(s, b); Shape(t) && OnlyPage(s, t, s.freelist[0])
  {
    hide PagesOk, ListsOk, TailsFull, WritersOk, PendingOk, StacksOk, LogOk, ReadersOk, MaintOk, DeliveredOk;
  }

  lemma AllocateIo(s: State, b: nat)
    requires CanAllocate(s, b)
    ensures var t := AllocatePage(s, b); Shape(t) && PendingOk(t) && StacksOk(t)
  {
    hide ListsOk, TailsFull, WritersOk, LogOk, ReadersOk, MaintOk, DeliveredOk;
    var t := AllocatePage(s, b);
    var p := s.freelist[0];
    AllocateFrame(s, b);
    assert PageOk(s.cfg, s.version, s.pages[p]);
    assert FlushOk(s.cfg, s.pages[p], s.file[p], PendingAt(s, p));
    FramePending(s, t, p);
    AttachedUpdate(s, t, p);
  }

  lemma AllocateContents(s: State, b: nat)
    requires CanAllocate(s, b)
    ensures var t := AllocatePage(s, b); Shape(t) && LogOk(t) && ReadersOk(t)
  {
    hide ListsOk, TailsFull, WritersOk, PendingOk, StacksOk, MaintOk, DeliveredOk;
    var t := AllocatePage(s, b);
    var p := s.freelist[0];
    AllocateFrame(s, b);
    FrameLog(s, t, p);
    assert ReadsOf(s, p) == {};
    FrameReaders(s, t, p);
  }

  lemma AllocateKeeps(s: State, b: nat)
    requires CanAllocate(s, b)
    ensures Inv(AllocatePage(s, b))
  {
    hide CanAllocate, AllocatePage, Shape, PagesOk, ListsOk, TailsFull, WritersOk, PendingOk, StacksOk, LogOk,
         ReadersOk, MaintOk, DeliveredOk;
    AllocatePages(s, b);
    AllocateLists(s, b);
    AllocateTails(s, b);
    AllocateRest(s, b);
    AllocateIo(s, b);
    AllocateContents(s, b);
  }

  // ----- steps on the buffer of one page -----

  ghost predicate BufferStep(s: State, t: State, p: nat) {
    && OnlyPage(s, t, p)
    && t.freelist == s.freelist && t.pageFree == s.pageFree && t.buckets == s.buckets && t.version == s.version
    && t.readers == s.readers && t.maint == s.maint && t.delivered == s.delivered && |t.writers| == |s.writers|
    && !s.pages[p].free && !t.pages[p].free && p != 0
    && t.pages[p].bucket == s.pages[p].bucket && t.pages[p].version == s.pages[p].version
    && t.pages[p].refcount == s.pages[p].refcount
    && (t.pages[p].active ==> s.pages[p].active)
    && s.pages[p].written <= t.pages[p].written <= t.cfg.pageSize
    && (s.pages[p].reserved == s.cfg.pageSize ==> t.pages[p].reserved == s.cfg.pageSize)
    && (LookedAt(s, p) && LookOk(s.pages[p]) ==> LookOk(t.pages[p]))
    && s.log <= t.log
  }

  lemma BufferStepLists(s: State, t: State, p: nat)
    requires Shape(s) && Shape(t) && BufferStep(s, t, p) && ListsOk(s) && TailsFull(s) && MaintOk(s) && DeliveredOk(s)
    ensures ListsOk(t) && TailsFull(t) && MaintOk(t) && DeliveredOk(t)
  {
    forall b | 0 <= b < |t.buckets|
      ensures BucketOk(t, b)
    {
      assert BucketOk(s, b);
    }
  }

  lemma BufferStepWriters(s: State, t: State, p: nat)
    requires Shape(s) && Shape(t) && BufferStep(s, t, p) && WritersOk(s)
    requires t.writers == s.writers && !Locked(s, p)
    ensures WritersOk(t)
  {
    forall b | 0 <= b < |t.writers| && t.writers[b].Holding?
      ensures t.writers[b].page < |t.pages| && Granted(t, t.writers[b].page, t.writers[b].len)
    {
      assert Granted(s, s.writers[b].page, s.writers[b].len);
    }
  }

  lemma BufferStepKeeps(s: State, t: State, p: nat)
    requires Inv(s) && Shape(t) && BufferStep(s, t, p)
    requires PageOk(t.cfg, t.version, t.pages[p])
    requires FlushOk(t.cfg, t.pages[p], t.file[p], PendingAt(t, p))
    requires forall r :: r in t.log && r !in s.log ==> r.page == p && 1 <= r.version < t.version
    requires forall r :: r in t.log && r.page == p ==> RecordOk(t, r)
    requires StacksOk(t) && WritersOk(t)
    ensures Inv(t)
  {
    hide PageOk, FlushOk, PendingAt, RecordOk, PagesOk, ListsOk, TailsFull, WritersOk, PendingOk, StacksOk, LogOk,
         ReadersOk, MaintOk, DeliveredOk;
    BufferStepLists(s, t, p);
    FramePages(s, t, p);
    FramePending(s, t, p);
    FrameLog(s, t, p);
    FrameReaders(s, t, p);
  }

  // ----- _allocate_wbuf -----

  ghost predicate CanAttach(s: State, p: nat) {
    && Inv(s) && p < |s.pages| && !Locked(s, p) && s.wbufs > 0
    && s.pages[p].active && s.pages[p].wbuf.None? && s.pages[p].reserved < s.cfg.pageSize
  }

  lemma AttachPage(s: State, p: nat)
    requires CanAttach(s, p)
    ensures var t := AllocateWbuf(s, p);
      && Shape(t) && BufferStep(s, t, p) && PageOk(t.cfg, t.version, t.pages[p])
      && FlushOk(t.cfg, t.pages[p], t.file[p], PendingAt(t, p))
  {
    hide ListsOk, TailsFull, WritersOk, StacksOk, LogOk, ReadersOk, MaintOk, DeliveredOk;
    assert PageOk(s.cfg, s.version, s.pages[p]);
    assert FlushOk(s.cfg, s.pages[p], s.file[p], PendingAt(s, p));
  }

  lemma AttachStacks(s: State, p: nat)
    requires CanAttach(s, p)
    ensures StacksOk(AllocateWbuf(s, p))
  {
    hide PagesOk, ListsOk, TailsFull, WritersOk, PendingOk, LogOk, ReadersOk, MaintOk, DeliveredOk;
    AttachedUpdate(s, AllocateWbuf(s, p), p);
    assert p !in Attached(s);
  }

  lemma AttachRecord(s: State, p: nat, r: Record)
    requires CanAttach(s, p) && r in s.log && r.page == p && Shape(AllocateWbuf(s, p))
    ensures RecordOk(AllocateWbuf(s, p), r)
  {
    hide ListsOk, TailsFull, WritersOk, PendingOk, StacksOk, ReadersOk, MaintOk, DeliveredOk;
    assert RecordOk(s, r);
    assert PageOk(s.cfg, s.version, s.pages[p]);
  }

  lemma AllocateWbufKeeps(s: State, p: nat)
    requires CanAttach(s, p)
    ensures Inv(AllocateWbuf(s, p)) && !Locked(AllocateWbuf(s, p), p)
  {
    hide PagesOk, ListsOk, TailsFull, WritersOk, PendingOk, StacksOk, LogOk, ReadersOk, MaintOk, DeliveredOk;
    hide RecordOk, PageOk, FlushOk, PendingAt, BufferStep;
    var t := AllocateWbuf(s, p);
    AttachPage(s, p);
    AttachStacks(s, p);
    forall r | r in t.log && r.page == p
      ensures RecordOk(t, r)
    {
      AttachRecord(s, p, r);
    }
    BufferStepWriters(s, t, p);
    BufferStepKeeps(s, t, p);
  }

  // ----- _submit_wbuf -----

  ghost predicate CanSubmit(s: State, p: nat) {
    && Inv(s) && p < |s.pages| && !Locked(s, p) && s.ios > 0
    && s.pages[p].wbuf.Some? && !s.pages[p].wbuf.value.full
  }

  lemma SubmitPage(s: State, p: nat)
    requires CanSubmit(s, p)
    ensures var t := SubmitWbuf(s, p);
      && Shape(t) && BufferStep(s, t, p) && PageOk(t.cfg, t.version, t.pages[p])
      && FlushOk(t.cfg, t.pages[p], t.file[p], PendingAt(t, p))
  {
    hide ListsOk, TailsFull, WritersOk, StacksOk, LogOk, ReadersOk, MaintOk, DeliveredOk;
    assert PageOk(s.cfg, s.version, s.pages[p]);
    assert FlushOk(s.cfg, s.pages[p], s.file[p], PendingAt(s, p));
  }

  lemma SubmitNotPending(s: State, p: nat)
    requires CanSubmit(s, p)
    ensures p !in s.pending && StacksOk(s)
  {
    hide PagesOk, ListsOk, TailsFull, WritersOk, StacksOk, LogOk, ReadersOk, MaintOk, DeliveredOk;
    assert FlushOk(s.cfg, s.pages[p], s.file[p], PendingAt(s, p));
  }

  lemma OneMore<K, V>(m: map<K, V>, k: K, v: V)
    requires k !in m
    ensures |m[k := v]| == |m| + 1
  {
    assert m[k := v].Keys == m.Keys + {k};
  }

  lemma SubmitStacks(s: State, p: nat)
    requires CanSubmit(s, p)
    ensures StacksOk(SubmitWbuf(s, p))
  {
    hide Inv;
    SubmitNotPending(s, p);
    var t := SubmitWbuf(s, p);
    AttachedUpdate(s, t, p);
    assert Attached(s) + {p} == Attached(s);
    OneMore(s.pending, p, t.pending[p]);
  }

  lemma SubmitRecord(s: State, p: nat, r: Record)
    requires CanSubmit(s, p) && r in s.log && r.page == p && Shape(SubmitWbuf(s, p))
    ensures RecordOk(SubmitWbuf(s, p), r)
  {
    hide ListsOk, TailsFull, WritersOk, PendingOk, StacksOk, ReadersOk, MaintOk, DeliveredOk;
    assert RecordOk(s, r);
    assert PageOk(s.cfg, s.version, s.pages[p]);
  }

  lemma SubmitKeeps(s: State, p: nat)
    requires CanSubmit(s, p)
    ensures Inv(SubmitWbuf(s, p)) && !Locked(SubmitWbuf(s, p), p)
  {
    hide PagesOk, ListsOk, TailsFull, WritersOk, PendingOk, StacksOk, LogOk, ReadersOk, MaintOk, DeliveredOk;
    hide RecordOk, PageOk, FlushOk, PendingAt, BufferStep;
    var t := SubmitWbuf(s, p);
    SubmitPage(s, p);
    SubmitStacks(s, p);
    forall r | r in t.log && r.page == p
      ensures RecordOk(t, r)
    {
      SubmitRecord(s, p, r);
    }
    BufferStepWriters(s, t, p);
    BufferStepKeeps(s, t, p);
  }

  // ----- pwrite and _wbuf_cb -----

  lemma SpliceElsewhere(f: seq<byte>, offset: nat, data: seq<byte>, lo: nat, hi: nat)
    requires offset + |data| <= |f| && lo <= hi <= offset
    ensures Splice(f, offset, data)[lo..hi] == f[lo..hi]
    ensures Splice(f, offset, data)[offset..offset + |data|] == data
  {}

  lemma PwritePage(s: State, p: nat)
    requires Inv(s) && Enabled(s, Pwrite(p)) && Asserts(s, Pwrite(p))
    ensures var t := Apply(s, Pwrite(p));
      && Shape(t) && BufferStep(s, t, p) && PageOk(t.cfg, t.version, t.pages[p])
      && FlushOk(t.cfg, t.pages[p], t.file[p], PendingAt(t, p))
  {
    hide ListsOk, TailsFull, WritersOk, StacksOk, LogOk, ReadersOk, MaintOk, DeliveredOk;
    assert PageOk(s.cfg, s.version, s.pages[p]);
    assert FlushOk(s.cfg, s.pages[p], s.file[p], PendingAt(s, p));
    SpliceElsewhere(s.file[p], s.pending[p].offset, s.pending[p].data, 0, 0);
  }

  lemma PwriteRest(s: State, p: nat)
    requires Inv(s) && Enabled(s, Pwrite(p)) && Asserts(s, Pwrite(p)) && Shape(Apply(s, Pwrite(p)))
    ensures StacksOk(Apply(s, Pwrite(p))) && WritersOk(Apply(s, Pwrite(p)))
  {
    hide PagesOk, ListsOk, TailsFull, PendingOk, LogOk, ReadersOk, MaintOk, DeliveredOk;
    var t := Apply(s, Pwrite(p));
    assert Attached(t) == Attached(s);
    assert t.pending.Keys == s.pending.Keys;
    forall b | 0 <= b < |t.writers| && t.writers[b].Holding?
      ensures Granted(t, t.writers[b].page, t.writers[b].len)
    {
      assert Granted(s, s.writers[b].page, s.writers[b].len);
    }
  }

  lemma PwriteRecord(s: State, p: nat, r: Record)
    requires Inv(s) && Enabled(s, Pwrite(p)) && Asserts(s, Pwrite(p)) && Shape(Apply(s, Pwrite(p)))
    requires r in s.log && r.page == p
    ensures RecordOk(Apply(s, Pwrite(p)), r)
  {
    hide ListsOk, TailsFull, WritersOk, StacksOk, ReadersOk, MaintOk, DeliveredOk;
    assert RecordOk(s, r);
    assert PageOk(s.cfg, s.version, s.pages[p]);
    assert FlushOk(s.cfg, s.pages[p], s.file[p], PendingAt(s, p));
    if r.version == s.pages[p].version && r.offset < s.pages[p].written {
      SpliceElsewhere(s.file[p], s.pending[p].offset, s.pending[p].data, r.offset, r.offset + |r.bytes|);
    }
  }

  lemma PwriteKeeps(s: State, p: nat)
    requires Inv(s) && Enabled(s, Pwrite(p)) && Asserts(s, Pwrite(p))
    ensures Inv(Apply(s, Pwrite(p)))
  {
    hide PagesOk, ListsOk, TailsFull, WritersOk, PendingOk, StacksOk, LogOk, ReadersOk, MaintOk, DeliveredOk;
    hide RecordOk, PageOk, FlushOk, PendingAt, BufferStep;
    var t := Apply(s, Pwrite(p));
    PwritePage(s, p);
    PwriteRest(s, p);
    forall r | r in t.log && r.page == p
      ensures RecordOk(t, r)
    {
      PwriteRecord(s, p, r);
    }
    BufferStepKeeps(s, t, p);
  }

  lemma FlushedPage(s: State, p: nat)
    requires Inv(s) && Enabled(s, Flushed(p)) && Asserts(s, Flushed(p))
    ensures var t := FlushDone(s, p);
      && Shape(t) && BufferStep(s, t, p) && PageOk(t.cfg, t.version, t.pages[p])
      && FlushOk(t.cfg, t.pages[p], t.file[p], PendingAt(t, p))
  {
    hide ListsOk, TailsFull, WritersOk, StacksOk, LogOk, ReadersOk, MaintOk, DeliveredOk;
    assert PageOk(s.cfg, s.version, s.pages[p]);
    assert FlushOk(s.cfg, s.pages[p], s.file[p], PendingAt(s, p));
  }

  lemma FlushedStacks(s: State, p: nat)
    requires Inv(s) && Enabled(s, Flushed(p)) && Asserts(s, Flushed(p))
    ensures StacksOk(FlushDone(s, p))
  {
    hide PagesOk, ListsOk, TailsFull, WritersOk, PendingOk, LogOk, ReadersOk, MaintOk, DeliveredOk;
    AttachedUpdate(s, FlushDone(s, p), p);
    assert p in Attached(s);
    assert (s.pending - {p}).Keys == s.pending.Keys - {p};
  }

  lemma SliceOfFlush(f: seq<byte>, offset: nat, data: seq<byte>, size: nat, at: nat, n: nat)
    requires |data| <= size && offset + size <= |f| && at + n <= |data|
    requires f[offset..offset + size] == Pad(data, size)
    ensures f[offset + at..offset + at + n] == data[at..at + n]
  {
    var padded := Pad(data, size);
    var got, want := f[offset + at..offset + at + n], data[at..at + n];
    forall i | 0 <= i < n
      ensures got[i] == want[i]
    {
      assert f[offset..offset + size][at + i] == padded[at + i] == padded[..|data|][at + i];
    }
    assert got == want;
  }

  /** After a flush the bytes of a buffered record are found in the file at the same offset. */
  lemma FlushedRecord(s: State, p: nat, r: Record)
    requires Inv(s) && Enabled(s, Flushed(p)) && Asserts(s, Flushed(p))
    requires r in s.log && r.page == p && Shape(FlushDone(s, p))
    ensures RecordOk(FlushDone(s, p), r)
  {
    hide ListsOk, TailsFull, WritersOk, StacksOk, ReadersOk, MaintOk, DeliveredOk;
    assert RecordOk(s, r);
    assert PageOk(s.cfg, s.version, s.pages[p]);
    assert FlushOk(s.cfg, s.pages[p], s.file[p], PendingAt(s, p));
    var pg := s.pages[p];
    if !pg.free && pg.version == r.version && r.offset >= pg.written {
      var w := pg.wbuf.value;
      SliceOfFlush(s.file[p], w.offset, w.data, s.cfg.wbufSize, r.offset - pg.written, |r.bytes|);
    }
  }

  lemma FlushedKeeps(s: State, p: nat)
    requires Inv(s) && Enabled(s, Flushed(p)) && Asserts(s, Flushed(p))
    ensures Inv(FlushDone(s, p))
  {
    hide PagesOk, ListsOk, TailsFull, WritersOk, PendingOk, StacksOk, LogOk, ReadersOk, MaintOk, DeliveredOk;
    hide RecordOk, PageOk, FlushOk, PendingAt, BufferStep;
    var t := FlushDone(s, p);
    FlushedPage(s, p);
    FlushedStacks(s, p);
    forall r | r in t.log && r.page == p
      ensures RecordOk(t, r)
    {
      FlushedRecord(s, p, r);
    }
    BufferStepWriters(s, t, p);
    BufferStepKeeps(s, t, p);
  }

  // ----- extstore_write -----

  ghost predicate CanCommit(s: State, b: nat, bytes: seq<byte>) {
    Inv(s) && Enabled(s, Commit(b, bytes)) && Asserts(s, Commit(b, bytes))
  }

  lemma CommitPage(s: State, b: nat, bytes: seq<byte>)
    requires CanCommit(s, b, bytes)
    ensures var t, p := Apply(s, Commit(b, bytes)), s.writers[b].page;
      && Shape(t) && BufferStep(s, t, p) && PageOk(t.cfg, t.version, t.pages[p])
      && FlushOk(t.cfg, t.pages[p], t.file[p], PendingAt(t, p))
  {
    hide ListsOk, TailsFull, StacksOk, LogOk, ReadersOk, MaintOk, DeliveredOk;
    var p := s.writers[b].page;
    assert PageOk(s.cfg, s.version, s.pages[p]);
    assert FlushOk(s.cfg, s.pages[p], s.file[p], PendingAt(s, p));
    assert Granted(s, p, s.writers[b].len);
  }

  lemma CommitRest(s: State, b: nat, bytes: seq<byte>)
    requires CanCommit(s, b, bytes) && Shape(Apply(s, Commit(b, bytes)))
    ensures var t := Apply(s, Commit(b, bytes)); StacksOk(t) && WritersOk(t)
  {
    hide PagesOk, ListsOk, TailsFull, PendingOk, LogOk, ReadersOk, MaintOk, DeliveredOk;
    var t, p := Apply(s, Commit(b, bytes)), s.writers[b].page;
    AttachedUpdate(s, t, p);
    assert p in Attached(s);
    assert Attached(t) == Attached(s);
    forall c | 0 <= c < |t.writers| && t.writers[c].Holding?
      ensures t.writers[c].page < |t.pages| && Granted(t, t.writers[c].page, t.writers[c].len)
    {
      assert Granted(s, s.writers[c].page, s.writers[c].len);
      assert if c < b then s.writers[c].page != p else s.writers[c].page != p;
    }
  }

  lemma CommitRecord(s: State, b: nat, bytes: seq<byte>, r: Record)
    requires CanCommit(s, b, bytes) && Shape(Apply(s, Commit(b, bytes)))
    requires r in Apply(s, Commit(b, bytes)).log && r.page == s.writers[b].page
    ensures RecordOk(Apply(s, Commit(b, bytes)), r)
    ensures r !in s.log ==> 1 <= r.version < s.version
  {
    hide ListsOk, TailsFull, StacksOk, ReadersOk, MaintOk, DeliveredOk;
    var t, p := Apply(s, Commit(b, bytes)), s.writers[b].page;
    assert PageOk(s.cfg, s.version, s.pages[p]);
    var w := s.pages[p].wbuf.value;
    if r in s.log {
      assert RecordOk(s, r);
      if s.pages[p].version == r.version && r.offset >= s.pages[p].written {
        var at := r.offset - s.pages[p].written;
        assert (w.data + bytes)[at..at + |r.bytes|] == w.data[at..at + |r.bytes|];
      }
    } else {
      assert (w.data + bytes)[|w.data|..|w.data| + |bytes|] == bytes;
    }
  }

  lemma CommitKeeps(s: State, b: nat, bytes: seq<byte>)
    requires CanCommit(s, b, bytes)
    ensures Inv(Apply(s, Commit(b, bytes)))
  {
    hide PagesOk, ListsOk, TailsFull, WritersOk, PendingOk, StacksOk, LogOk, ReadersOk, MaintOk, DeliveredOk;
    hide RecordOk, PageOk, FlushOk, PendingAt, BufferStep;
    var t, p := Apply(s, Commit(b, bytes)), s.writers[b].page;
    CommitPage(s, b, bytes);
    CommitRest(s, b, bytes);
    forall r | r in t.log && r.page == p
      ensures RecordOk(t, r) && (r !in s.log ==> 1 <= r.version < s.version)
    {
      CommitRecord(s, b, bytes, r);
    }
    BufferStepKeeps(s, t, p);
  }

  // ----- _free_page -----

  ghost predicate CanFree(s: State, p: nat) {
    && Inv(s) && p < |s.pages| && !s.pages[p].free && LookOk(s.pages[p]) && s.pages[p].refcount == 0
    && !(s.maint.Scanning? && s.maint.low == Some(p))
    && s.pages[p].bucket < |s.buckets|
  }

  lemma FreeFrame(s: State, p: nat)
    requires CanFree(s, p)
    ensures var t := FreePage(s, p); Shape(t) && OnlyPage(s, t, p) && PageOk(t.cfg, t.version, t.pages[p]) && p != 0
    ensures s.pages[p].wbuf.None?
  {
    hide ListsOk, TailsFull, WritersOk, PendingOk, StacksOk, LogOk, ReadersOk, MaintOk, DeliveredOk;
    assert PageOk(s.cfg, s.version, s.pages[p]);
  }

  lemma FreeLists(s: State, p: nat)
    requires CanFree(s, p) && p != 0 && Shape(FreePage(s, p))
    ensures var t := FreePage(s, p); ListsOk(t) && TailsFull(t)
  {
    hide PagesOk, WritersOk, PendingOk, StacksOk, LogOk, ReadersOk, MaintOk, DeliveredOk;
    var t, b := FreePage(s, p), s.pages[p].bucket;
    assert BucketOk(s, b);
    RemoveFromContents(s.buckets[b], p);
    forall c | 0 <= c < |t.buckets|
      ensures BucketOk(t, c)
    {
      assert BucketOk(s, c);
    }
    assert p !in s.freelist;
    forall c, i | 0 <= c < |t.buckets| && 0 < i < |t.buckets[c]|
      ensures t.buckets[c][i] < |t.pages| && t.pages[t.buckets[c][i]].reserved == t.cfg.pageSize
    {
      assert BucketOk(t, c) && t.buckets[c][i] in t.buckets[c];
      if c == b {
        RemoveFromTail(s.buckets[b], p, i);
      }
    }
  }

  lemma FreeHead(s: State, p: nat, c: nat)
    requires CanFree(s, p) && c < |s.buckets|
    ensures var t := FreePage(s, p);
      && (HeadFull(s, c) ==> HeadFull(t, c))
      && (HeadFull(t, c) || (s.buckets[c] != [] && t.buckets[c][0] == s.buckets[c][0]))
  {
    hide PagesOk, WritersOk, PendingOk, StacksOk, LogOk, ReadersOk, MaintOk, DeliveredOk;
    var t, b := FreePage(s, p), s.pages[p].bucket;
    assert BucketOk(s, c) && BucketOk(s, b);
    RemoveFromContents(s.buckets[b], p);
    if t.buckets[c] != [] {
      assert t.buckets[c][0] in t.buckets[c];
      if c == b {
        RemoveFromHead(s.buckets[c], p);
      }
    }
  }

  lemma FreeWriters(s: State, p: nat)
    requires CanFree(s, p) && s.pages[p].wbuf.None? && Shape(FreePage(s, p))
    ensures var t := FreePage(s, p); WritersOk(t) && MaintOk(t) && DeliveredOk(t)
  {
    hide PagesOk, PendingOk, StacksOk, LogOk, ReadersOk;
    var t, b := FreePage(s, p), s.pages[p].bucket;
    forall c | 0 <= c < |t.writers| && t.writers[c].Holding?
      ensures t.writers[c].page < |t.pages| && Granted(t, t.writers[c].page, t.writers[c].len)
    {
      assert Granted(s, s.writers[c].page, s.writers[c].len);
    }
    forall c | 0 <= c < |t.writers| && (t.writers[c].Picked? || t.writers[c].NeedPage?)
      ensures HeadFull(s, c) ==> HeadFull(t, c)
      ensures HeadFull(t, c) || (s.buckets[c] != [] && t.buckets[c][0] == s.buckets[c][0])
    {
      FreeHead(s, p, c);
    }
  }

  lemma FreeIo(s: State, p: nat)
    requires CanFree(s, p) && s.pages[p].wbuf.None? && Shape(FreePage(s, p)) && OnlyPage(s, FreePage(s, p), p)
    ensures var t := FreePage(s, p); PendingOk(t) && StacksOk(t)
  {
    hide PagesOk, ListsOk, TailsFull, WritersOk, MaintOk, DeliveredOk, LogOk, ReadersOk;
    var t := FreePage(s, p);
    assert FlushOk(s.cfg, s.pages[p], s.file[p], PendingAt(s, p));
    FramePending(s, t, p);
    AttachedUpdate(s, t, p);
    assert Attached(t) == Attached(s);
  }

  lemma FreeContents(s: State, p: nat)
    requires CanFree(s, p) && s.pages[p].wbuf.None? && Shape(FreePage(s, p)) && OnlyPage(s, FreePage(s, p), p)
    ensures var t := FreePage(s, p); LogOk(t) && ReadersOk(t)
  {
    hide PagesOk, ListsOk, TailsFull, WritersOk, MaintOk, DeliveredOk, PendingOk, StacksOk, RecordOk, OnlyPage, Shape;
    var t := FreePage(s, p);
    forall r | r in t.log && r.page == p
      ensures RecordOk(t, r)
    {
      FreeRecord(t, r);
    }
    FrameLog(s, t, p);
    assert |ReadsOf(s, p)| == 0;
    FrameReaders(s, t, p);
  }

  lemma FreeRecord(t: State, r: Record)
    requires Shape(t) && r.page < |t.pages| && t.pages[r.page].free
    ensures RecordOk(t, r)
  {}

  lemma FreeKeeps(s: State, p: nat)
    requires CanFree(s, p)
    ensures Inv(FreePage(s, p))
  {
    hide Shape, PagesOk, ListsOk, TailsFull, WritersOk, PendingOk, StacksOk, LogOk, ReadersOk, MaintOk, DeliveredOk,
         FreePage, PageOk, OnlyPage;
    FreeFrame(s, p);
    FreeLists(s, p);
    FreeWriters(s, p);
    FreeIo(s, p);
    FreeContents(s, p);
    FreePages(s, p);
  }

  lemma FreePages(s: State, p: nat)
    requires CanFree(s, p) && Shape(FreePage(s, p)) && OnlyPage(s, FreePage(s, p), p)
    requires var t := FreePage(s, p); PageOk(t.cfg, t.version, t.pages[p])
    ensures PagesOk(FreePage(s, p))
  {
    hide ListsOk, TailsFull, WritersOk, PendingOk, StacksOk, LogOk, ReadersOk, MaintOk, DeliveredOk;
    FramePages(s, FreePage(s, p), p);
  }

  // ----- whole actions -----

  lemma WriterMoves(s: State, b: nat, w: Writer)
    requires Inv(s) && b < |s.writers|
    requires w.Idle? || (w.Picked? && w.page < |s.pages| && s.buckets[b] != [] && s.buckets[b][0] == w.page)
          || (w.NeedPage? && HeadFull(s, b))
          || (w.Holding? && w.page < |s.pages| && Granted(s, w.page, w.len) && !Locked(s, w.page))
    ensures Inv(s.(writers := s.writers[b := w]))
  {
    var t := s.(writers := s.writers[b := w]);
    assert Attached(t) == Attached(s);
    assert WritersOk(t) by {
      hide PagesOk, ListsOk, TailsFull, PendingOk, StacksOk, LogOk, ReadersOk, MaintOk, DeliveredOk;
      forall c | 0 <= c < |t.writers| && t.writers[c].Holding?
        ensures t.writers[c].page < |t.pages| && Granted(t, t.writers[c].page, t.writers[c].len)
      {
        assert c != b ==> Granted(s, s.writers[c].page, s.writers[c].len);
      }
    }
    WriterKeepsRest(s, t);
  }

  lemma WriterKeepsRest(s: State, t: State)
    requires Inv(s) && t == s.(writers := t.writers) && |t.writers| == |s.writers|
    ensures Shape(t) && PagesOk(t) && ListsOk(t) && TailsFull(t) && PendingOk(t) && StacksOk(t) && LogOk(t)
    ensures ReadersOk(t)
    ensures MaintOk(t) && DeliveredOk(t)
  {
    hide FlushOk, PageOk;
    assert Attached(t) == Attached(s);
    WriterKeepsLog(s, t);
    assert ListsOk(t) by {
      forall c | 0 <= c < |t.buckets|
        ensures BucketOk(t, c)
      {
        assert BucketOk(s, c);
      }
    }
    forall p | 0 <= p < |t.pages|
      ensures ReadsOf(t, p) == ReadsOf(s, p) && PendingAt(t, p) == PendingAt(s, p)
    {
    }
  }

  lemma WriterKeepsLog(s: State, t: State)
    requires Shape(s) && LogOk(s) && t == s.(writers := t.writers) && |t.writers| == |s.writers|
    ensures Shape(t) && LogOk(t)
  {
    forall r | r in t.log
      ensures RecordOk(t, r)
    {
      assert RecordOk(s, r);
    }
  }

  /**
    A picked page that turns out full leaves its bucket ready for a new head, even
    if the page was recycled meanwhile.
   */
  lemma BucketOfFull(s: State, b: nat)
    requires Inv(s) && b < |s.writers| && s.writers[b].Picked? && s.writers[b].page < |s.pages|
    requires PageFull(s, s.pages[s.writers[b].page])
    ensures HeadFull(s, b)
  {
    hide TailsFull, PendingOk, StacksOk, LogOk, ReadersOk, MaintOk, DeliveredOk;
    var p := s.writers[b].page;
    assert PageOk(s.cfg, s.version, s.pages[p]);
    if s.buckets[b] != [] && s.buckets[b][0] == p {
      assert BucketOk(s, b) && p in s.buckets[b];
    }
  }

  lemma PickKeeps(s: State, b: nat)
    requires Inv(s) && Enabled(s, Pick(b)) && Asserts(s, Pick(b))
    ensures Inv(Apply(s, Pick(b)))
  {
    hide PagesOk, TailsFull, WritersOk, PendingOk, StacksOk, LogOk, ReadersOk, MaintOk, DeliveredOk;
    if s.buckets[b] != [] {
      assert BucketOk(s, b) && s.buckets[b][0] in s.buckets[b];
      WriterMoves(s, b, Picked(s.buckets[b][0]));
    } else if s.pageFree > 0 {
      FreelistHead(s);
      AllocateKeeps(s, b);
      WriterMoves(AllocatePage(s, b), b, Picked(s.freelist[0]));
    }
  }

  lemma RetryKeeps(s: State, b: nat)
    requires Inv(s) && Enabled(s, Retry(b)) && Asserts(s, Retry(b))
    ensures Inv(Apply(s, Retry(b)))
  {
    hide PagesOk, ListsOk, TailsFull, PendingOk, StacksOk, LogOk, ReadersOk, MaintOk, DeliveredOk;
    WriterMoves(s, b, Idle);
    var s1 := s.(writers := s.writers[b := Idle]);
    if s.pageFree > 0 {
      FreelistHead(s);
      AllocateKeeps(s1, b);
    }
  }

  lemma CheckKeeps(s: State, b: nat, len: nat)
    requires Inv(s) && Enabled(s, Check(b, len)) && Asserts(s, Check(b, len))
    ensures Inv(Apply(s, Check(b, len)))
  {
    hide ListsOk, TailsFull, WritersOk, PendingOk, StacksOk, LogOk, ReadersOk, MaintOk, DeliveredOk;
    var p := s.writers[b].page;
    var pg := s.pages[p];
    if PageFull(s, pg) {
      BucketOfFull(s, b);
      WriterMoves(s, b, NeedPage);
    } else {
      var s1 := if MustSubmit(s, pg, len) then SubmitWbuf(s, p) else s;
      if MustSubmit(s, pg, len) {
        SubmitKeeps(s, p);
      }
      if s1.pages[p].wbuf.None? && s1.pages[p].reserved < s.cfg.pageSize && s1.wbufs > 0 {
        AllocateWbufKeeps(s1, p);
      }
      var s2 := PrepareWbuf(s, p, len);
      assert Inv(s2) && !Locked(s2, p) && s2.writers == s.writers;
      if Granted(s2, p, len) {
        WriterMoves(s2, b, Holding(p, len));
      } else {
        WriterMoves(s2, b, Idle);
      }
    }
  }

  // ----- reads, deletes, closes and maintenance -----

  lemma ReadMiss(s: State, rec: Record)
    requires Inv(s)
    ensures Inv(s.(delivered := s.delivered + {(rec, None)}))
  {
    var t := s.(delivered := s.delivered + {(rec, None)});
    LayoutKeeps(s, t);
    SameReaders(s, t);
  }

  lemma SameReaders(s: State, t: State)
    requires Inv(s) && LayoutKept(s, t) && Shape(t) && t.readers == s.readers
    requires forall p :: 0 <= p < |s.pages| ==> t.pages[p].refcount == s.pages[p].refcount
    requires forall p :: 0 <= p < |s.pages| && LookedAt(s, p) ==> t.pages[p] == s.pages[p]
    ensures ReadersOk(t)
    ensures t.maint == s.maint ==> MaintOk(t)
  {
    hide PagesOk, ListsOk, TailsFull, WritersOk, PendingOk, StacksOk, LogOk, DeliveredOk;
    forall id | id in t.readers
      ensures SameLayout(s.pages[t.readers[id].rec.page], t.pages[t.readers[id].rec.page])
    {
    }
    forall p | 0 <= p < |t.pages|
      ensures t.pages[p].refcount == |ReadsOf(t, p)|
    {
      assert ReadsOf(t, p) == ReadsOf(s, p);
    }
    if s.maint.Scanning? && s.maint.low.Some? {
      assert SameLayout(s.pages[s.maint.low.value], t.pages[s.maint.low.value]);
    }
  }

  lemma ReadBeginKeeps(s: State, id: nat, rec: Record)
    requires Inv(s) && Enabled(s, ReadBegin(id, rec)) && Asserts(s, ReadBegin(id, rec))
    ensures Inv(Apply(s, ReadBegin(id, rec)))
  {
    var pg := s.pages[rec.page];
    if !Readable(pg, rec) {
      ReadMiss(s, rec);
    } else if InWbuf(pg, rec) {
      ReadBuffered(s, id, rec);
    } else {
      ReadFile(s, id, rec);
    }
  }

  /** A read served from the write buffer returns the bytes of the record. */
  lemma ReadBuffered(s: State, id: nat, rec: Record)
    requires Inv(s) && Enabled(s, ReadBegin(id, rec)) && Asserts(s, ReadBegin(id, rec))
    requires Readable(s.pages[rec.page], rec) && InWbuf(s.pages[rec.page], rec)
    ensures Inv(Apply(s, ReadBegin(id, rec)))
  {
    hide ListsOk, TailsFull, WritersOk, PendingOk, StacksOk, ReadersOk, MaintOk;
    var t := Apply(s, ReadBegin(id, rec));
    assert RecordOk(s, rec);
    assert PageOk(s.cfg, s.version, s.pages[rec.page]);
    LayoutKeeps(s, t);
    SameReaders(s, t);
  }

  lemma ReadFile(s: State, id: nat, rec: Record)
    requires Inv(s) && Enabled(s, ReadBegin(id, rec)) && Asserts(s, ReadBegin(id, rec))
    requires Readable(s.pages[rec.page], rec) && !InWbuf(s.pages[rec.page], rec)
    ensures Inv(Apply(s, ReadBegin(id, rec)))
  {
    hide ListsOk, TailsFull, WritersOk, PendingOk, StacksOk, ReadersOk;
    var t := Apply(s, ReadBegin(id, rec));
    assert RecordOk(s, rec);
    assert PageOk(s.cfg, s.version, s.pages[rec.page]);
    LayoutKeeps(s, t);
    ReaderAdded(s, t, id, rec);
  }

  lemma ReadsOnAdd(readers: map<nat, Read>, id: nat, rec: Record, q: nat)
    requires id !in readers
    ensures |ReadsOn(readers[id := Read(rec, None)], q)| == |ReadsOn(readers, q)| + if q == rec.page then 1 else 0
  {
    var more := readers[id := Read(rec, None)];
    assert ReadsOn(more, q) == if q == rec.page then ReadsOn(readers, q) + {id} else ReadsOn(readers, q);
  }

  lemma ReadsOnRemove(readers: map<nat, Read>, id: nat, q: nat)
    requires id in readers
    ensures |ReadsOn(readers - {id}, q)| == |ReadsOn(readers, q)| - if q == readers[id].rec.page then 1 else 0
  {
    assert ReadsOn(readers - {id}, q) == if q == readers[id].rec.page then ReadsOn(readers, q) - {id}
      else ReadsOn(readers, q);
  }

  lemma ReaderAdded(s: State, t: State, id: nat, rec: Record)
    requires Shape(s) && Shape(t) && ReadersOk(s) && t.log == s.log && t.cfg == s.cfg && |t.pages| == |s.pages|
    requires rec in s.log && id !in s.readers && t.readers == s.readers[id := Read(rec, None)]
    requires t.pages == s.pages[rec.page := s.pages[rec.page].(refcount := s.pages[rec.page].refcount + 1)]
    requires !s.pages[rec.page].free && s.pages[rec.page].version == rec.version
    requires rec.offset + |rec.bytes| <= s.pages[rec.page].written <= s.cfg.pageSize
    ensures ReadersOk(t)
  {
    hide ReadsOn;
    forall q | 0 <= q < |t.pages|
      ensures t.pages[q].refcount == |ReadsOf(t, q)|
    {
      ReadsOnAdd(s.readers, id, rec, q);
    }
  }

  /** The unlocked pread sees the bytes of the record: the page cannot have been reused. */
  lemma PreadKeeps(s: State, id: nat)
    requires Inv(s) && Enabled(s, Pread(id)) && Asserts(s, Pread(id))
    ensures Inv(Apply(s, Pread(id)))
  {
    hide PagesOk, ListsOk, TailsFull, WritersOk, PendingOk, StacksOk, LogOk, ReadersOk;
    var t := Apply(s, Pread(id));
    LayoutKeeps(s, t);
    PreadExact(s, id);
    ReaderFilled(s, t, id);
  }

  lemma ReaderFilled(s: State, t: State, id: nat)
    requires Shape(s) && Shape(t) && ReadersOk(s) && t.log == s.log && t.cfg == s.cfg && t.pages == s.pages
    requires id in s.readers && t.readers == s.readers[id := Read(s.readers[id].rec, Some(s.readers[id].rec.bytes))]
    ensures ReadersOk(t)
  {
    forall q | 0 <= q < |t.pages|
      ensures t.pages[q].refcount == |ReadsOf(t, q)|
    {
      assert ReadsOf(t, q) == ReadsOf(s, q);
    }
  }

  lemma PreadExact(s: State, id: nat)
    requires Inv(s) && Enabled(s, Pread(id)) && Asserts(s, Pread(id))
    ensures var rec := s.readers[id].rec; s.file[rec.page][rec.offset..rec.offset + |rec.bytes|] == rec.bytes
  {
    hide ListsOk, TailsFull, WritersOk, PendingOk, StacksOk, MaintOk, DeliveredOk;
    var rec := s.readers[id].rec;
    assert RecordOk(s, rec);
    if rec.bytes == [] {
      assert s.file[rec.page][rec.offset..rec.offset] == [];
    }
  }

  lemma ReadEndKeeps(s: State, id: nat)
    requires Inv(s) && Enabled(s, ReadEnd(id)) && Asserts(s, ReadEnd(id))
    ensures Inv(Apply(s, ReadEnd(id)))
  {
    hide PagesOk, ListsOk, TailsFull, WritersOk, PendingOk, StacksOk, LogOk;
    var t := Apply(s, ReadEnd(id));
    LayoutKeeps(s, t);
    ReaderRemoved(s, t, id);
  }

  lemma ReaderRemoved(s: State, t: State, id: nat)
    requires Shape(s) && Shape(t) && ReadersOk(s) && t.log == s.log && t.cfg == s.cfg && |t.pages| == |s.pages|
    requires id in s.readers && t.readers == s.readers - {id}
    requires var p := s.readers[id].rec.page;
      s.pages[p].refcount > 0 && t.pages == s.pages[p := s.pages[p].(refcount := s.pages[p].refcount - 1)]
    ensures ReadersOk(t)
  {
    hide ReadsOn;
    forall q | 0 <= q < |t.pages|
      ensures t.pages[q].refcount == |ReadsOf(t, q)|
    {
      ReadsOnRemove(s.readers, id, q);
    }
  }

  lemma MarkKeeps(s: State, t: State)
    requires Inv(s) && LayoutKept(s, t) && t.readers == s.readers && t.delivered == s.delivered && t.maint == s.maint
    requires forall p :: 0 <= p < |s.pages| ==> t.pages[p].refcount == s.pages[p].refcount
    requires forall p :: 0 <= p < |s.pages| && LookedAt(s, p) ==> t.pages[p] == s.pages[p]
    ensures Inv(t)
  {
    hide Shape, PagesOk, ListsOk, TailsFull, WritersOk, PendingOk, StacksOk, LogOk, ReadersOk, MaintOk, LayoutKept;
    LayoutKeeps(s, t);
    SameReaders(s, t);
  }

  lemma ScanKeeps(s: State, m: Maint)
    requires Inv(s) && MaintOk(s.(maint := m))
    ensures Inv(s.(maint := m))
  {
    hide PagesOk, ListsOk, TailsFull, WritersOk, PendingOk, StacksOk, LogOk, MaintOk;
    var t := s.(maint := m);
    LayoutKeeps(s, t);
    SameReaders(s, t);
  }

  lemma LookKeeps(s: State)
    requires Inv(s) && Enabled(s, MaintLook)
    ensures Inv(Apply(s, MaintLook))
  {
    hide PagesOk, ListsOk, TailsFull, WritersOk, PendingOk, StacksOk, LogOk, ReadersOk, DeliveredOk;
    ScanKeeps(s, Apply(s, MaintLook).maint);
  }

  lemma VisitKeeps(s: State)
    requires Inv(s) && Enabled(s, MaintVisit) && Asserts(s, MaintVisit)
    ensures Inv(Apply(s, MaintVisit))
  {
    hide Shape, PagesOk, ListsOk, TailsFull, WritersOk, PendingOk, StacksOk, LogOk, ReadersOk, DeliveredOk;
    var i := s.maint.next;
    var pg := s.pages[i];
    var m := s.maint.(next := i + 1, looking := false);
    if pg.free {
      ScanKeeps(s, m);
    } else {
      var m1 := if pg.objCount > 0 && !pg.closed && (m.low.None? || pg.version < m.lowVersion)
                then m.(low := Some(i), lowVersion := pg.version) else m;
      ScanKeeps(s, m1);
      if (pg.objCount == 0 || pg.closed) && pg.refcount == 0 {
        VisitFrees(s, m1);
      }
    }
  }

  /** The page that the scan frees, inactive or just allocated, is not the one it remembers for eviction. */
  lemma VisitFrees(s: State, m1: Maint)
    requires Inv(s) && Enabled(s, MaintVisit) && Asserts(s, MaintVisit)
    requires var pg := s.pages[s.maint.next];
      && !pg.free && (pg.objCount == 0 || pg.closed) && pg.refcount == 0
      && m1 == s.maint.(next := s.maint.next + 1, looking := false)
    ensures Inv(FreePage(s, s.maint.next).(maint := m1.(doEvict := false)))
  {
    hide Shape, PagesOk, ListsOk, TailsFull, WritersOk, PendingOk, StacksOk, LogOk, ReadersOk, DeliveredOk;
    FreeKeeps(s, s.maint.next);
    ScanKeeps(FreePage(s, s.maint.next), m1.(doEvict := false));
  }

  lemma EvictKeeps(s: State)
    requires Inv(s) && Enabled(s, MaintEvict) && Asserts(s, MaintEvict)
    ensures Inv(Apply(s, MaintEvict))
  {
    hide Shape, PagesOk, ListsOk, TailsFull, WritersOk, PendingOk, StacksOk, LogOk, ReadersOk, DeliveredOk;
    var s1 := s.(maint := Sleeping);
    ScanKeeps(s, Sleeping);
    if s.maint.doEvict && s.maint.low.Some? {
      var p := s.maint.low.value;
      if !s.pages[p].closed {
        var s2 := SetPage(s1, p, s1.pages[p].(closed := true));
        MarkKeeps(s1, s2);
        if s.pages[p].refcount == 0 {
          FreeKeeps(s2, p);
        }
      }
    }
  }

  lemma {:induction false} InitInv(cfg: Config)
    requires cfg.Valid()
    ensures Inv(Init(cfg))
  {
    var s := Init(cfg);
    assert Attached(s) == {};
    forall p: nat
      ensures p in s.freelist <==> 0 < p < |s.pages| && s.pages[p].free
    {
      if 0 < p < |s.pages| {
        assert s.freelist[p - 1] == p;
      }
    }
    forall p | 0 <= p < |s.pages|
      ensures ReadsOf(s, p) == {}
    {
    }
  }

  /** Every action that gets past its assertions keeps the invariant. */
  lemma StepKeeps(s: State, a: Action)
    requires Inv(s) && Enabled(s, a) && Asserts(s, a)
    ensures Inv(Apply(s, a))
  {
    hide Inv, Enabled, Apply, Asserts;
    match a
    case Pick(b) => PickKeeps(s, b);
    case Check(b, len) => CheckKeeps(s, b, len);
    case Retry(b) => RetryKeeps(s, b);
    case Commit(b, bytes) => CommitKeeps(s, b, bytes);
    case Pwrite(p) => PwriteKeeps(s, p);
    case Flushed(p) => FlushedIsApply(s, p);
    case ReadBegin(id, rec) => ReadBeginKeeps(s, id, rec);
    case Pread(id) => PreadKeeps(s, id);
    case ReadEnd(id) => ReadEndKeeps(s, id);
    case Delete(p, version, count, nbytes) => DeleteKeeps(s, p, version, count, nbytes);
    case Close(p, version) => CloseKeeps(s, p, version);
    case MaintWake => WakeKeeps(s);
    case MaintLook => LookKeeps(s);
    case MaintVisit => VisitKeeps(s);
    case MaintEvict => EvictKeeps(s);
  }

  lemma FlushedIsApply(s: State, p: nat)
    requires Inv(s) && Enabled(s, Flushed(p)) && Asserts(s, Flushed(p))
    ensures Inv(Apply(s, Flushed(p)))
  {
    hide Inv;
    FlushedKeeps(s, p);
  }

  lemma DeleteKeeps(s: State, p: nat, version: nat, count: nat, nbytes: nat)
    requires Inv(s) && Enabled(s, Delete(p, version, count, nbytes))
    ensures Inv(Apply(s, Delete(p, version, count, nbytes)))
  {
    hide Inv;
    MarkKeeps(s, Apply(s, Delete(p, version, count, nbytes)));
  }

  lemma CloseKeeps(s: State, p: nat, version: nat)
    requires Inv(s) && Enabled(s, Close(p, version))
    ensures Inv(Apply(s, Close(p, version)))
  {
    hide Inv;
    MarkKeeps(s, Apply(s, Close(p, version)));
  }

  lemma WakeKeeps(s: State)
    requires Inv(s) && Enabled(s, MaintWake)
    ensures Inv(Apply(s, MaintWake))
  {
    hide PagesOk, ListsOk, TailsFull, WritersOk, PendingOk, StacksOk, LogOk, ReadersOk, DeliveredOk;
    ScanKeeps(s, Scanning(0, false, s.pageFree == 0, None, 0));
  }

  // ----- whole runs -----

  predicate Step(s: State, a: Action, t: State) {
    Enabled(s, a) && Asserts(s, a) && t == Apply(s, a)
  }

  /** A run from the initial state: each state follows from the one before by an enabled action. */
  ghost predicate IsRun(cfg: Config, states: seq<State>, actions: seq<Action>) {
    && cfg.Valid()
    && |states| == |actions| + 1
    && states[0] == Init(cfg)
    && forall i {:trigger actions[i]} :: 0 <= i < |actions| ==> Step(states[i], actions[i], states[i + 1])
  }

  lemma {:induction false} RunInv(cfg: Config, states: seq<State>, actions: seq<Action>, i: nat)
    requires IsRun(cfg, states, actions) && i < |states|
    ensures Inv(states[i])
    decreases i
  {
    hide Inv, Enabled, Apply, Asserts;
    if i == 0 {
      InitInv(cfg);
    } else {
      RunInv(cfg, states, actions, i - 1);
      assert Step(states[i - 1], actions[i - 1], states[i]);
      StepKeeps(states[i - 1], actions[i - 1]);
    }
  }

  /**
    Over every run, any enabled action passes the assertions of the source and can
    be taken, except for one family: a read of no bytes where a buffer ends. A
    caller that never asks to read zero bytes never meets it.
   */
  lemma RunNeverAsserts(cfg: Config, states: seq<State>, actions: seq<Action>, a: Action)
    requires IsRun(cfg, states, actions) && Enabled(states[|actions|], a)
    ensures Asserts(states[|actions|], a) <==> !EmptyAtEnd(states[|actions|], a)
    ensures (a.ReadBegin? ==> a.rec.bytes != []) ==> Asserts(states[|actions|], a)
    ensures Asserts(states[|actions|], a) ==> IsRun(cfg, states + [Apply(states[|actions|], a)], actions + [a])
  {
    hide Inv, Enabled, Apply, Asserts;
    RunInv(cfg, states, actions, |actions|);
    AssertsHold(states[|actions|], a);
  }

  // ----- the failing read -----

  const TAKEN := EMPTY_PAGE.(active := true, free := false, version := 1)

  /** A store that extstore_init accepts, with a page besides page 0, and pages that hold something. */
  predicate TwoPages(cfg: Config) {
    cfg.Valid() && cfg.pageCount >= 2 && cfg.pageSize > 0
  }

  /** Early in a run: only bucket 0 has been at work, on page 1. */
  function Early(cfg: Config, pg: Page, wbufs: nat, w: Writer, log: set<Record>): State
    requires TwoPages(cfg)
  {
    var s := Init(cfg);
    s.(freelist := s.freelist[1..], pageFree := s.pageFree - 1, buckets := s.buckets[0 := [1]], version := 2,
       pages := s.pages[1 := pg], wbufs := wbufs, writers := s.writers[0 := w], log := log)
  }

  lemma EarlyPick(cfg: Config)
    requires TwoPages(cfg)
    ensures Step(Init(cfg), Pick(0), Early(cfg, TAKEN, cfg.wbufCount, Picked(1), {}))
  {
    var s := Init(cfg);
    assert s.freelist[0] == 1 && s.buckets[0] == [] && s.writers[0] == Idle && s.pages[1] == EMPTY_PAGE;
    assert [1] + s.buckets[0] == [1];
  }

  lemma EarlyPickAgain(cfg: Config, pg: Page, wbufs: nat, log: set<Record>)
    requires TwoPages(cfg)
    ensures Step(Early(cfg, pg, wbufs, Idle, log), Pick(0), Early(cfg, pg, wbufs, Picked(1), log))
  {
    var s := Early(cfg, pg, wbufs, Idle, log);
    assert s.writers[0 := Picked(1)] == Init(cfg).writers[0 := Picked(1)];
  }

  /** Only bucket 0 is at work, so nobody holds a page but its writer. */
  lemma EarlyUnlocked(cfg: Config, pg: Page, wbufs: nat, w: Writer, log: set<Record>)
    requires TwoPages(cfg) && !w.Holding?
    ensures !Locked(Early(cfg, pg, wbufs, w, log), 1)
  {}

  lemma EarlyAttach(cfg: Config)
    requires TwoPages(cfg)
    ensures Step(Early(cfg, TAKEN, cfg.wbufCount, Picked(1), {}), Check(0, cfg.wbufSize),
                 Early(cfg, TAKEN.(wbuf := Some(Wbuf(0, [], false)), reserved := cfg.wbufSize), cfg.wbufCount - 1,
                   Holding(1, cfg.wbufSize), {}))
  {
    var s, held := Early(cfg, TAKEN, cfg.wbufCount, Picked(1), {}),
      TAKEN.(wbuf := Some(Wbuf(0, [], false)), reserved := cfg.wbufSize);
    EarlyUnlocked(cfg, TAKEN, cfg.wbufCount, Picked(1), {});
    var init := Init(cfg);
    assert s.pages[1 := held] == init.pages[1 := held];
    assert s.writers[0 := Holding(1, cfg.wbufSize)] == init.writers[0 := Holding(1, cfg.wbufSize)];
  }

  lemma EarlyCommit(cfg: Config, pg: Page, wbufs: nat, bytes: seq<byte>, log: set<Record>)
    requires TwoPages(cfg) && pg.wbuf.Some?
    ensures Step(Early(cfg, pg, wbufs, Holding(1, |bytes|), log), Commit(0, bytes),
                 Early(cfg, pg.(wbuf := Some(pg.wbuf.value.(data := pg.wbuf.value.data + bytes)),
                                bytesUsed := pg.bytesUsed + |bytes|, objCount := pg.objCount + 1), wbufs, Idle,
                       log + {Record(1, pg.version, pg.wbuf.value.offset + |pg.wbuf.value.data|, bytes)}))
  {
    var s, init := Early(cfg, pg, wbufs, Holding(1, |bytes|), log), Init(cfg);
    assert s.writers[0 := Idle] == init.writers[0 := Idle];
    var t := Apply(s, Commit(0, bytes));
    assert t.pages == init.pages[1 := t.pages[1]];
  }

  lemma EarlyCheckNothing(cfg: Config, pg: Page, wbufs: nat, log: set<Record>)
    requires TwoPages(cfg) && pg.active && pg.wbuf.Some? && !pg.wbuf.value.full && |pg.wbuf.value.data| == cfg.wbufSize
    ensures Step(Early(cfg, pg, wbufs, Picked(1), log), Check(0, 0), Early(cfg, pg, wbufs, Holding(1, 0), log))
  {
    EarlyUnlocked(cfg, pg, wbufs, Picked(1), log);
    var s := Early(cfg, pg, wbufs, Picked(1), log);
    assert s.writers[0 := Holding(1, 0)] == Init(cfg).writers[0 := Holding(1, 0)];
  }

  /** Nothing was written behind a full buffer: reading that back fails the assertion on the offset. */
  lemma EarlyRead(cfg: Config, pg: Page, wbufs: nat, log: set<Record>)
    requires TwoPages(cfg) && pg.active && !pg.free && !pg.closed && pg.version == 1 && pg.wbuf.Some? && pg.written == 0
    requires Record(1, 1, cfg.wbufSize, []) in log
    ensures var s, a := Early(cfg, pg, wbufs, Idle, log), ReadBegin(0, Record(1, 1, cfg.wbufSize, []));
      Enabled(s, a) && !Asserts(s, a)
  {
    EarlyUnlocked(cfg, pg, wbufs, Idle, log);
  }

  /**
    In every store with a page to spare: fill a buffer, write nothing into it, read
    that back, and an assertion fails.
   */
  lemma EmptyReadFails(cfg: Config) returns (states: seq<State>, actions: seq<Action>, a: Action)
    requires TwoPages(cfg)
    ensures IsRun(cfg, states, actions) && |actions| == 6
    ensures a == ReadBegin(0, Record(1, 1, cfg.wbufSize, []))
    ensures Enabled(states[6], a) && !Asserts(states[6], a)
  {
    hide Step, Early, Enabled, Asserts;
    var data: seq<byte> := seq(cfg.wbufSize, i => 7);
    var n := cfg.wbufCount - 1;
    var empty := TAKEN.(wbuf := Some(Wbuf(0, [], false)), reserved := cfg.wbufSize);
    var full := empty.(wbuf := Some(Wbuf(0, data, false)), bytesUsed := cfg.wbufSize, objCount := 1);
    var none := Record(1, 1, cfg.wbufSize, []);
    var one, two := {Record(1, 1, 0, data)}, {Record(1, 1, 0, data), none};
    EarlyPick(cfg);
    EarlyAttach(cfg);
    EarlyCommit(cfg, empty, n, data, {});
    assert [] + data == data && {} + one == one;
    EarlyPickAgain(cfg, full, n, one);
    EarlyCheckNothing(cfg, full, n, one);
    EarlyCommit(cfg, full, n, [], one);
    assert data + [] == data && one + {none} == two;
    EarlyRead(cfg, full.(objCount := 2), n, two);
    states := [Init(cfg), Early(cfg, TAKEN, cfg.wbufCount, Picked(1), {}),
               Early(cfg, empty, n, Holding(1, cfg.wbufSize), {}), Early(cfg, full, n, Idle, one),
               Early(cfg, full, n, Picked(1), one), Early(cfg, full, n, Holding(1, 0), one),
               Early(cfg, full.(objCount := 2), n, Idle, two)];
    actions := [Pick(0), Check(0, cfg.wbufSize), Commit(0, data), Pick(0), Check(0, 0), Commit(0, [])];
    a := ReadBegin(0, none);
    forall i | 0 <= i < 6
      ensures Step(states[i], actions[i], states[i + 1])
    {
      assert i == 0 || i == 1 || i == 2 || i == 3 || i == 4 || i == 5;
    }
  }

  /** For example pages of 8 MiB and buffers of 2 MiB. */
  lemma SmallStore()
    ensures TwoPages(Config(4 * ALIGNMENT, ALIGNMENT, 2, 1, 1))
  {}

  /**
    Over every run, a read of a record handed out by an earlier write is a miss or
    returns exactly the bytes of that write.
   */
  lemma ReadsAreExact(cfg: Config, states: seq<State>, actions: seq<Action>, i: nat, rec: Record,
                      got: Option<seq<byte>>)
    requires IsRun(cfg, states, actions) && i < |states| && (rec, got) in states[i].delivered
    ensures got.None? || got.value == rec.bytes
  {
    hide IsRun;
    RunInv(cfg, states, actions, i);
  }

  /** Over every run, a page with a read in flight is neither freed nor reused. */
  lemma PageHeldByRead(cfg: Config, states: seq<State>, actions: seq<Action>, i: nat, id: nat)
    requires IsRun(cfg, states, actions) && i < |states| && id in states[i].readers
    ensures var rec := states[i].readers[id].rec;
      && rec.page < |states[i].pages| && !states[i].pages[rec.page].free
      && states[i].pages[rec.page].version == rec.version
      && states[i].pages[rec.page].refcount > 0
  {
    hide IsRun;
    RunInv(cfg, states, actions, i);
    assert id in ReadsOf(states[i], states[i].readers[id].rec.page);
  }
}
