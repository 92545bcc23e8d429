/**
  The critical sections of extstore.c on a mutable engine. The pages are linked
  by their next pointers; the ghost state says what the fields mean.
 */
module ExtstoreEngine {
  import opened ExtstoreTypes
  import opened ExtstoreSteps
  import opened ExtstoreInvariant
  import opened ExtstoreProofs
  import opened ExtstoreContents
  import opened ExtstoreEviction
  import opened ExtstoreLinks

  lemma {:induction false} RemoveFromAt(l: seq<nat>, p: nat, k: nat)
    requires k < |l| && p !in l[..k] && l[k] == p
    ensures RemoveFrom(l, p) == l[..k] + l[k + 1..]
  {
    if k > 0 {
      assert l[0] == l[..k][0] && l[0] != p;
      assert l[1..][..k - 1] == l[..k][1..];
      RemoveFromAt(l[1..], p, k - 1);
    }
  }

  /** What a read under the page lock comes to; a pinned read goes to the file. */
  datatype Outcome = Hit(bytes: seq<byte>) | Miss | Pinned

  class Engine {
    const cfg: Config
    var pages: seq<Page>
    var next: seq<Option<nat>>
    var freeHead: Option<nat>
    var pageFree: nat
    var heads: seq<Option<nat>>
    var file: seq<seq<byte>>
    var version: nat
    var wbufs: nat
    var ios: nat
    var pending: map<nat, WriteIo>
    ghost var view: State

    /**
      The fields are those of view; its lists are kept in the pointers, and where
      the threads stand is in their local variables.
     */
    ghost predicate Mirrors()
      reads this
    {
      && view.cfg == cfg && view.pages == pages && view.pageFree == pageFree && view.file == file
      && view.version == version && view.wbufs == wbufs && view.ios == ios && view.pending == pending
      && Linked(view, next, freeHead, heads)
    }

    ghost predicate Valid()
      reads this
    {
      Mirrors() && Inv(view)
    }

    /** extstore_init: every page but the first is pushed on the free list. */
    constructor (cfg: Config)
      requires cfg.Valid()
      ensures view == Init(cfg) && Valid()
    {
      hide Inv, Linked, Chain, Copies;
      this.cfg := cfg;
      view := Init(cfg);
      pages, file := Copies(cfg.pageCount, EMPTY_PAGE), Copies(cfg.pageCount, Copies(cfg.pageSize, 0));
      heads := Copies(cfg.bucketCount, None);
      version, wbufs, ios, pending := 1, cfg.wbufCount, cfg.wbufCount, map[];
      ghost var list: seq<nat> := [];
      var links: seq<Option<nat>> := Copies(cfg.pageCount, None);
      var head: Option<nat>, count: nat := None, 0;
      ChainNil(links);
      var i := cfg.pageCount - 1;
      while i > 0
        invariant 0 <= i <= cfg.pageCount - 1
        invariant list == seq(cfg.pageCount - 1 - i, j requires 0 <= j => i + 1 + j)
        invariant count == |list| && |links| == cfg.pageCount
        invariant Chain(links, head, list)
      {
        ChainPush(links, head, list, i);
        links := links[i := head];
        head := Some(i);
        list := [i] + list;
        count := count + 1;
        i := i - 1;
      }
      next, freeHead, pageFree := links, head, count;
      InitInv(cfg);
      InitLinked(cfg, links, head, list);
    }

    /** The pointer writes of _allocate_page. */
    method MoveToBucket(b: nat) returns (page: nat)
      requires Valid() && b < |view.buckets| && pageFree > 0
      modifies `next, `freeHead, `heads
      ensures CanTake(view) && page == view.freelist[0] && Linked(AllocatePage(view, b), next, freeHead, heads)
    {
      hide Inv, Linked, AllocatePage;
      TakeLinked(view, next, freeHead, heads, b);
      LinkedSize(view, next, freeHead, heads);
      page := freeHead.value;
      freeHead := next[page];
      next := next[page := heads[b]];
      heads := heads[b := Some(page)];
    }

    /**
      _allocate_page: the page it took, if any, was first on the free list and now
      heads its bucket, under a version that no record has.
     */
    method TakePage(b: nat) returns (page: Option<nat>)
      requires Valid() && b < |view.buckets|
      modifies this
      ensures old(pageFree) > 0 ==> CanTake(old(view))
      ensures view == AllocatePage(old(view), b) && Mirrors()
      ensures page.Some? <==> old(pageFree) > 0
      ensures page.Some? ==> Taken(old(view), view, b, page.value)
    {
      hide Inv, Linked, Taken;
      if pageFree == 0 {
        return None;
      }
      PageTaken(view, b);
      var tmp := MoveToBucket(b);
      pages := pages[tmp := pages[tmp].(active := true, free := false, closed := false, version := version,
        bucket := b)];
      version := version + 1;
      pageFree := pageFree - 1;
      view := AllocatePage(view, b);
      page := Some(tmp);
    }

    /** The walk of _free_page through the bucket, and its pointer writes. */
    method MoveToFree(p: nat)
      requires Valid() && p < |pages| && !pages[p].free && pages[p].bucket < |view.buckets|
      modifies `next, `freeHead, `heads
      ensures Linked(FreePage(view, p), next, freeHead, heads) && freeHead == Some(p)
    {
      hide Inv, Linked, Chain, Distinct, FreePage;
      var b := pages[p].bucket;
      ghost var list := view.buckets[b];
      LinkedSize(view, next, freeHead, heads);
      ListFacts(view, b);
      ChainHead(next, heads[b], list);
      var prev: Option<nat>, tmp := None, heads[b];
      ghost var k := 0;
      while tmp != Some(p)
        invariant 0 <= k < |list| && p in list[k..] && p !in list[..k]
        invariant tmp == Some(list[k]) && prev == (if k > 0 then Some(list[k - 1]) else None)
        modifies {}
        decreases |list| - k
      {
        WalkOn(next, heads[b], list, p, k);
        prev := tmp;
        tmp := next[tmp.value];
        k := k + 1;
      }
      RemoveFromAt(list, p, k);
      ReleaseLinked(view, next, freeHead, heads, p, k);
      if prev.Some? {
        next := next[prev.value := next[p]];
      } else {
        heads := heads[b := next[p]];
      }
      next := next[p := freeHead];
      freeHead := Some(p);
    }

    /** _free_page: the page leaves its bucket, is wiped, and becomes the first on the free list. */
    method ReleasePage(p: nat)
      requires Valid() && p < |pages| && !pages[p].free && pages[p].bucket < |view.buckets|
      modifies this
      ensures view == FreePage(old(view), p) && Mirrors() && freeHead == Some(p)
    {
      hide Inv, Linked;
      MoveToFree(p);
      pages := pages[p := pages[p].(version := 0, objCount := 0, bytesUsed := 0, reserved := 0, written := 0,
                                    bucket := 0, active := false, closed := false, free := true)];
      pageFree := pageFree + 1;
      view := FreePage(view, p);
    }

    /** Before an action is taken: the assertions it runs past hold, and what it will do keeps the invariant. */
    lemma Foresee(a: Action)
      requires Valid() && Enabled(view, a) && !EmptyAtEnd(view, a)
      ensures Asserts(view, a) && Inv(Apply(view, a))
      ensures !a.Close? && !a.MaintVisit? && !a.MaintEvict? ==> SameContents(view, Apply(view, a))
      ensures a.Close? ==> SameOutside(view, Apply(view, a), a.p)
      ensures a.MaintVisit? ==> SameOutside(view, Apply(view, a), view.maint.next)
      ensures a.MaintEvict? && view.maint.low.Some? ==> SameOutside(view, Apply(view, a), view.maint.low.value)
    {
      hide Inv, Enabled, Asserts, Apply, SameContents, SameOutside, EmptyAtEnd;
      AssertsHold(view, a);
      StepKeeps(view, a);
      if a.Close? {
        CloseContents(view, a.p, a.version);
      } else if a.MaintVisit? {
        VisitContents(view);
      } else if a.MaintEvict? {
        EvictContents(view);
      } else {
        ContentsStay(view, a);
      }
    }

    /** extstore_write_request, first critical section: a page for the bucket, if it has one or one is free. */
    method RequestPick(b: nat) returns (page: Option<nat>)
      requires Valid() && Enabled(view, Pick(b))
      modifies this
      ensures b < |old(view).buckets| && b < |view.buckets| && b < |view.writers|
      ensures page.Some? <==> old(view).buckets[b] != [] || old(pageFree) > 0
      ensures page.Some? ==> view.writers[b] == Picked(page.value) && page == First(view.buckets[b])
      ensures Valid() && Step(old(view), Pick(b), view) && SameContents(old(view), view)
    {
      hide Inv, Linked, SameContents;
      Foresee(Pick(b));
      ghost var s := view;
      LinkedSize(view, next, freeHead, heads);
      HeadIs(view, next, freeHead, heads, b);
      page := heads[b];
      if page.None? {
        page := TakePage(b);
      }
      LinkedSame(view, Apply(s, Pick(b)), next, freeHead, heads);
      view := Apply(s, Pick(b));
    }

    /** _allocate_wbuf: a buffer, if the stack has one, for the next part of the page. */
    method AttachWbuf(p: nat)
      requires Mirrors() && p < |pages| && pages[p].wbuf.None?
      modifies this
      ensures view == AllocateWbuf(old(view), p) && Mirrors()
    {
      hide Linked;
      if wbufs > 0 {
        wbufs := wbufs - 1;
        var offset := pages[p].reserved;
        pages := pages[p := pages[p].(reserved := offset + cfg.wbufSize, wbuf := Some(Wbuf(offset, [], false)))];
        LinkedSame(view, AllocateWbuf(view, p), next, freeHead, heads);
        view := AllocateWbuf(view, p);
      }
    }

    /** _submit_wbuf, and the full mark its caller sets. */
    method Submit(p: nat)
      requires Mirrors() && p < |pages| && pages[p].wbuf.Some? && ios > 0
      modifies this
      ensures view == SubmitWbuf(old(view), p) && Mirrors()
    {
      hide Linked;
      var w := pages[p].wbuf.value;
      ios := ios - 1;
      pending := pending[p := WriteIo(w.offset, Pad(w.data, cfg.wbufSize), false)];
      pages := pages[p := pages[p].(wbuf := Some(w.(full := true)))];
      LinkedSame(view, SubmitWbuf(view, p), next, freeHead, heads);
      view := SubmitWbuf(view, p);
    }

    /** Submits a buffer that is too full for the request, and attaches one if the page has none. */
    method Prepare(p: nat, len: nat)
      requires Mirrors() && p < |pages| && (MustSubmit(view, pages[p], len) ==> ios > 0)
      modifies this
      ensures view == PrepareWbuf(old(view), p, len) && Mirrors() && |pages| == |old(pages)|
    {
      hide Linked;
      if pages[p].wbuf.Some? && cfg.wbufSize - |pages[p].wbuf.value.data| < len && !pages[p].wbuf.value.full {
        Submit(p);
      }
      if pages[p].wbuf.None? && pages[p].reserved < cfg.pageSize {
        AttachWbuf(p);
      }
    }

    /**
      extstore_write_request under the page lock: a grant is a buffer with room for
      len bytes that nobody else writes to.
     */
    method RequestCheck(b: nat, p: nat, len: nat) returns (granted: bool)
      requires Valid() && Enabled(view, Check(b, len)) && view.writers[b] == Picked(p)
      modifies this
      ensures b < |view.writers| && (granted <==> view.writers[b].Holding?)
      ensures granted ==>
        && view.writers[b] == Holding(p, len) && p < |pages| && pages[p].wbuf.Some? && !pages[p].wbuf.value.full
        && |pages[p].wbuf.value.data| + len <= cfg.wbufSize
      ensures p < |old(pages)| && CheckAnswers(old(view), view, b, p, len)
      ensures Valid() && Step(old(view), Check(b, len), view) && SameContents(old(view), view)
    {
      hide Inv, Linked, SameContents, PrepareWbuf, MustSubmit, CheckAnswers;
      Foresee(Check(b, len));
      CheckEffect(view, b, len);
      ghost var s := view;
      if !pages[p].active || ((pages[p].wbuf.None? || pages[p].wbuf.value.full) && pages[p].reserved >= cfg.pageSize) {
        LinkedSame(s, Apply(s, Check(b, len)), next, freeHead, heads);
        view := Apply(s, Check(b, len));
        return false;
      }
      Prepare(p, len);
      granted := pages[p].wbuf.Some? && !pages[p].wbuf.value.full && cfg.wbufSize - |pages[p].wbuf.value.data| >= len;
      LinkedSame(view, Apply(s, Check(b, len)), next, freeHead, heads);
      view := Apply(s, Check(b, len));
    }

    /** extstore_write_request after a full page: a new head for the bucket, if a page is free. */
    method RequestRetry(b: nat)
      requires Valid() && Enabled(view, Retry(b))
      modifies this
      ensures b < |old(view).buckets| && b < |view.buckets|
      ensures old(pageFree) > 0 ==>
        old(view).freelist != [] && view.buckets[b] == [old(view).freelist[0]] + old(view).buckets[b]
      ensures Valid() && Step(old(view), Retry(b), view) && SameContents(old(view), view)
    {
      hide Inv, Linked, SameContents;
      Foresee(Retry(b));
      ghost var s := view;
      var _ := TakePage(b);
      LinkedSame(view, Apply(s, Retry(b)), next, freeHead, heads);
      view := Apply(s, Retry(b));
    }

    /**
      The caller's copy into the buffer, then extstore_write: the record is found at
      once, unless the page was closed meanwhile.
     */
    method Write(b: nat, p: nat, bytes: seq<byte>) returns (rec: Record)
      requires Valid() && Enabled(view, Commit(b, bytes)) && view.writers[b] == Holding(p, |bytes|)
      modifies this
      ensures view.log == old(view).log + {rec} && rec.page == p < |pages| && rec.bytes == bytes
      ensures Valid() && Lookup(view, rec) == if pages[p].closed then None else Some(bytes)
      ensures Step(old(view), Commit(b, bytes), view) && SameContents(old(view), view)
    {
      hide Inv, Linked, SameContents, Lookup;
      Foresee(Commit(b, bytes));
      ghost var s := view;
      var w := pages[p].wbuf.value;
      rec := Record(p, pages[p].version, w.offset + |w.data|, bytes);
      pages := pages[p := pages[p].(wbuf := Some(w.(data := w.data + bytes)),
                                    bytesUsed := pages[p].bytesUsed + |bytes|, objCount := pages[p].objCount + 1)];
      LinkedSame(s, Apply(s, Commit(b, bytes)), next, freeHead, heads);
      view := Apply(s, Commit(b, bytes));
      LookupIs(view, rec);
      GrantedInUse(s, b);
    }

    /** The I/O thread writes a submitted buffer to the file. */
    method FlushToFile(p: nat)
      requires Valid() && Enabled(view, Pwrite(p))
      modifies this
      ensures Valid() && Step(old(view), Pwrite(p), view) && SameContents(old(view), view)
    {
      hide Inv, Linked, SameContents;
      Foresee(Pwrite(p));
      ghost var s := view;
      var io := pending[p];
      file := file[p := Splice(file[p], io.offset, io.data)];
      pending := pending[p := io.(flushed := true)];
      LinkedSame(s, Apply(s, Pwrite(p)), next, freeHead, heads);
      view := Apply(s, Pwrite(p));
    }

    /** _wbuf_cb: the buffer goes back to its stack; its records are from now on found in the file. */
    method WbufCallback(p: nat)
      requires Valid() && Enabled(view, Flushed(p))
      modifies this
      ensures p < |pages| && pages[p].wbuf.None? && wbufs == old(wbufs) + 1 && ios == old(ios) + 1
      ensures p < |old(pages)| && pages[p].written == old(pages)[p].written + cfg.wbufSize <= cfg.pageSize
      ensures pages[p].active <==> pages[p].written < cfg.pageSize
      ensures forall r :: r in view.log && r.page == p && Readable(pages[p], r) ==>
        r.offset + |r.bytes| <= pages[p].written
      ensures Valid() && Step(old(view), Flushed(p), view) && SameContents(old(view), view)
    {
      hide Inv, Linked, SameContents, Readable;
      Foresee(Flushed(p));
      ghost var s := view;
      var pg := pages[p].(written := pages[p].written + cfg.wbufSize, wbuf := None);
      if pg.written == cfg.pageSize {
        pg := pg.(active := false);
      }
      PageAfterFlush(s, p);
      WrittenOut(FlushDone(s, p), p);
      LinkedSame(s, FlushDone(s, p), next, freeHead, heads);
      pages := pages[p := pg];
      wbufs, ios, pending := wbufs + 1, ios + 1, pending - {p};
      view := Apply(s, Flushed(p));
    }

    /**
      The page-locked part of a read: the bytes written under the record, a miss if
      the record is lost, or a reference that keeps the page.
     */
    method BeginRead(id: nat, rec: Record) returns (out: Outcome)
      requires Valid() && Enabled(view, ReadBegin(id, rec)) && !EmptyAtEnd(view, ReadBegin(id, rec))
      modifies this
      ensures out.Hit? ==> out.bytes == rec.bytes
      ensures out.Miss? <==> Lookup(old(view), rec) == None
      ensures out.Pinned? ==>
        && id in view.readers && view.readers[id] == Read(rec, None)
        && rec.page < |old(pages)| == |pages| && pages[rec.page].refcount == old(pages)[rec.page].refcount + 1
      ensures Valid() && Step(old(view), ReadBegin(id, rec), view) && SameContents(old(view), view)
    {
      hide Inv, Linked, SameContents, Lookup;
      Foresee(ReadBegin(id, rec));
      LookupIs(view, rec);
      BufferedIs(view, rec);
      ghost var s := view;
      var pg := pages[rec.page];
      if !pg.free && !pg.closed && pg.version == rec.version {
        if pg.active && rec.offset >= pg.written {
          var at := rec.offset - pg.wbuf.value.offset;
          out := Hit(pg.wbuf.value.data[at..at + |rec.bytes|]);
        } else {
          pages := pages[rec.page := pg.(refcount := pg.refcount + 1)];
          out := Pinned;
        }
      } else {
        out := Miss;
      }
      LinkedSame(s, Apply(s, ReadBegin(id, rec)), next, freeHead, heads);
      view := Apply(s, ReadBegin(id, rec));
    }

    /** The pread of a pinned read, without any lock. */
    method ReadFromFile(id: nat, rec: Record) returns (bytes: seq<byte>)
      requires Valid() && id in view.readers && view.readers[id] == Read(rec, None)
      modifies this
      ensures bytes == rec.bytes && id in view.readers && view.readers[id] == Read(rec, Some(bytes))
      ensures Valid() && Step(old(view), Pread(id), view) && SameContents(old(view), view)
    {
      hide Inv, Linked, SameContents;
      Foresee(Pread(id));
      PreadExact(view, id);
      ghost var s := view;
      bytes := file[rec.page][rec.offset..rec.offset + |rec.bytes|];
      LinkedSame(s, Apply(s, Pread(id)), next, freeHead, heads);
      view := Apply(s, Pread(id));
    }

    /** The end of a pinned read gives the reference back. */
    method EndRead(id: nat, rec: Record)
      requires Valid() && Enabled(view, ReadEnd(id)) && view.readers[id].rec == rec
      modifies this
      ensures id !in view.readers
      ensures rec.page < |old(pages)| == |pages| && pages[rec.page].refcount == old(pages)[rec.page].refcount - 1
      ensures Valid() && Step(old(view), ReadEnd(id), view) && SameContents(old(view), view)
    {
      hide Inv, Linked, SameContents;
      Foresee(ReadEnd(id));
      ghost var s := view;
      pages := pages[rec.page := pages[rec.page].(refcount := pages[rec.page].refcount - 1)];
      LinkedSame(s, Apply(s, ReadEnd(id)), next, freeHead, heads);
      view := Apply(s, ReadEnd(id));
    }

    /** extstore_delete: only counts change, and they never go below zero. */
    method DeleteObjects(p: nat, v: nat, count: nat, nbytes: nat) returns (ok: bool)
      requires Valid() && Enabled(view, Delete(p, v, count, nbytes))
      modifies this
      ensures p < |old(pages)| == |pages|
      ensures !ok ==> view == old(view)
      ensures ok <==> !old(pages)[p].closed && old(pages)[p].version == v
      ensures ok && count <= old(pages)[p].objCount ==> pages[p].objCount + count == old(pages)[p].objCount
      ensures ok && nbytes <= old(pages)[p].bytesUsed ==> pages[p].bytesUsed + nbytes == old(pages)[p].bytesUsed
      ensures Valid() && Step(old(view), Delete(p, v, count, nbytes), view) && SameContents(old(view), view)
    {
      hide Inv, Linked, SameContents;
      Foresee(Delete(p, v, count, nbytes));
      ghost var s := view;
      ok := !pages[p].closed && pages[p].version == v;
      if ok {
        var used := if pages[p].bytesUsed >= nbytes then pages[p].bytesUsed - nbytes else 0;
        var objs := if pages[p].objCount >= count then pages[p].objCount - count else 0;
        pages := pages[p := pages[p].(bytesUsed := used, objCount := objs)];
      }
      LinkedSame(s, Apply(s, Delete(p, v, count, nbytes)), next, freeHead, heads);
      view := Apply(s, Delete(p, v, count, nbytes));
    }

    /** extstore_close_page: hides the records of the page and of no other. */
    method ClosePage(p: nat, v: nat)
      requires Valid() && Enabled(view, Close(p, v))
      modifies this
      ensures p < |old(pages)| == |pages| && (old(pages)[p].version == v ==> pages[p].closed)
      ensures Valid() && Step(old(view), Close(p, v), view) && SameOutside(old(view), view, p)
    {
      hide Inv, Linked, SameOutside;
      Foresee(Close(p, v));
      ghost var s := view;
      if !pages[p].closed && pages[p].version == v {
        pages := pages[p := pages[p].(closed := true)];
      }
      LinkedSame(s, Apply(s, Close(p, v)), next, freeHead, heads);
      view := Apply(s, Close(p, v));
    }

    /** The scan takes the lock of a page and passes over an active one; m holds the variables of the thread. */
    method Look(m: Maint) returns (n: Maint)
      requires Valid() && Enabled(view, MaintLook) && m == view.maint
      modifies this
      ensures m.Scanning? && n.Scanning? && m.next < |pages| && (n.looking <==> !pages[m.next].active)
      ensures Valid() && Step(old(view), MaintLook, view) && SameContents(old(view), view) && n == view.maint
    {
      hide Inv, Linked, SameContents;
      Foresee(MaintLook);
      ghost var s := view;
      n := if pages[m.next].active then m.(next := m.next + 1) else m.(looking := true);
      LinkedSame(s, Apply(s, MaintLook), next, freeHead, heads);
      view := Apply(s, MaintLook);
    }

    /**
      One page of the scan: it is freed only if nobody reads it and it is closed or
      has no objects left; no other page loses a record.
     */
    method ScanPage(m: Maint) returns (n: Maint)
      requires Valid() && Enabled(view, MaintVisit) && m == view.maint
      modifies this
      ensures m.Scanning? && n.Scanning? && m.next < |old(pages)|
      ensures pages != old(pages) ==>
        var pg := old(pages)[m.next];
        pg.refcount == 0 && (pg.closed || pg.objCount == 0) && !n.doEvict && freeHead == Some(m.next)
      ensures n.doEvict <==> m.doEvict && !Reclaims(old(view), MaintVisit)
      ensures |pages| == |old(pages)|
      ensures pages[m.next].free <==> old(pages)[m.next].free || Reclaims(old(view), MaintVisit)
      ensures if Candidate(old(view), MaintVisit) && (m.low.None? || old(pages)[m.next].version < m.lowVersion)
        then Remembered(old(view), MaintVisit, n)
        else n.low == m.low && n.lowVersion == m.lowVersion
      ensures Valid() && Step(old(view), MaintVisit, view) && SameOutside(old(view), view, m.next) && n == view.maint
    {
      hide Inv, Linked, SameContents, SameOutside, FreePage;
      Foresee(MaintVisit);
      VisitKnows(view);
      ghost var s := view;
      var i := m.next;
      var pg := pages[i];
      n := m.(next := i + 1, looking := false);
      if pg.free {
        LinkedSame(s, Apply(s, MaintVisit), next, freeHead, heads);
      } else {
        if pg.objCount > 0 && !pg.closed {
          if n.low.None? || pg.version < n.lowVersion {
            n := n.(low := Some(i), lowVersion := pg.version);
          }
        }
        if (pg.objCount == 0 || pg.closed) && pg.refcount == 0 {
          ReleasePage(i);
          n := n.(doEvict := false);
        }
        LinkedSame(view, Apply(s, MaintVisit), next, freeHead, heads);
      }
      view := Apply(s, MaintVisit);
    }

    /** The eviction of one page. */
    method EvictPage(p: nat)
      requires Valid() && view.maint == Sleeping && p < |pages| && !pages[p].free && pages[p].bucket < |view.buckets|
      modifies this
      ensures view == Evict(old(view), p) && Mirrors()
    {
      hide Inv, Linked, FreePage;
      if !pages[p].closed {
        ghost var closed := SetPage(view, p, pages[p].(closed := true));
        MarkKeeps(view, closed);
        LinkedSame(view, closed, next, freeHead, heads);
        pages := pages[p := pages[p].(closed := true)];
        view := closed;
        if pages[p].refcount == 0 {
          ReleasePage(p);
        }
      }
    }

    /**
      The end of a pass: the page remembered for eviction is closed, and freed at
      once if nobody reads it; no other page loses a record.
     */
    method FinishScan(m: Maint)
      requires Valid() && Enabled(view, MaintEvict) && m == view.maint
      modifies this
      ensures m.Scanning? && (m.low.Some? ==> m.low.value < |old(pages)| == |pages|)
      ensures m.low.Some? && m.doEvict ==> pages[m.low.value].closed || pages[m.low.value].free
      ensures m.low.Some? && m.doEvict ==>
        (pages[m.low.value].free <==> !old(pages)[m.low.value].closed && old(pages)[m.low.value].refcount == 0)
      ensures pages != old(pages) ==> m.low.Some? && SameOutside(old(view), view, m.low.value)
      ensures Valid() && Step(old(view), MaintEvict, view) && view.maint == Sleeping
    {
      hide Inv, Linked, SameOutside;
      Foresee(MaintEvict);
      EvictEffect(view);
      ghost var s := view;
      if m.low.Some? {
        LowFacts(s);
      }
      ScanKeeps(s, Sleeping);
      LinkedSame(s, s.(maint := Sleeping), next, freeHead, heads);
      view := s.(maint := Sleeping);
      if m.doEvict && m.low.Some? {
        EvictPage(m.low.value);
      }
    }
  }
}
