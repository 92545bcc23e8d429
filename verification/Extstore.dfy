/**
  extstore.c: a log-structured page store. Writers append into write buffers,
  an I/O thread flushes buffers and serves reads, and a maintenance thread frees
  and evicts pages. Each action below is one critical section of the source; a
  run is any interleaving of them.
 */
module ExtstoreTypes {

  type byte = bv8

  datatype Option<T> = None | Some(value: T)

  /** Pages and write buffers are multiples of 2 MiB. */
  const ALIGNMENT: nat := 0x20_0000

  datatype Config = Config(pageSize: nat, wbufSize: nat, pageCount: nat, bucketCount: nat, wbufCount: nat) {
    /** What extstore_init accepts. */
    predicate Valid() {
      && wbufSize > 0
      && pageSize % wbufSize == 0
      && pageSize % ALIGNMENT == 0 && wbufSize % ALIGNMENT == 0
      && 1 <= bucketCount <= wbufCount
      && pageCount > 0
    }
  }

  /** A write buffer attached to a page; data is the filled part. */
  datatype Wbuf = Wbuf(offset: nat, data: seq<byte>, full: bool)

  datatype Page = Page(
    version: nat,
    refcount: nat,
    reserved: nat,
    written: nat,
    bucket: nat,
    objCount: nat,
    bytesUsed: nat,
    active: bool,
    closed: bool,
    free: bool,
    wbuf: Option<Wbuf>)

  /** A flush in the I/O queue: the padded buffer, and whether pwrite has happened. */
  datatype WriteIo = WriteIo(offset: nat, data: seq<byte>, flushed: bool)

  /** What extstore_write handed to its caller. */
  datatype Record = Record(page: nat, version: nat, offset: nat, bytes: seq<byte>)

  /** A read that passed its version check and holds a page reference. */
  datatype Read = Read(rec: Record, got: Option<seq<byte>>)

  /** Where the single writer of a bucket stands. */
  datatype Writer =
    | Idle
    | Picked(page: nat)            // page chosen, page lock not yet taken
    | NeedPage                     // page was full, engine lock not yet taken
    | Holding(page: nat, len: nat) // write request granted; page lock held

  /** The maintenance thread; while looking it holds the lock of page next, which it found inactive. */
  datatype Maint =
    | Sleeping
    | Scanning(next: nat, looking: bool, doEvict: bool, low: Option<nat>, lowVersion: nat)

  datatype State = State(
    cfg: Config,
    pages: seq<Page>,
    file: seq<seq<byte>>,
    freelist: seq<nat>,
    pageFree: nat,
    buckets: seq<seq<nat>>,
    version: nat,
    wbufs: nat,                    // buffers on the wbuf stack
    ios: nat,                      // entries on the io stack
    pending: map<nat, WriteIo>,    // submitted flushes, by page
    readers: map<nat, Read>,
    writers: seq<Writer>,
    maint: Maint,
    log: set<Record>,
    delivered: set<(Record, Option<seq<byte>>)>)

  const EMPTY_PAGE := Page(0, 0, 0, 0, 0, 0, 0, false, false, true, None)
}

module ExtstoreSteps {
  import opened ExtstoreTypes

  function SetPage(s: State, p: nat, pg: Page): State
    requires p < |s.pages|
  {
    s.(pages := s.pages[p := pg])
  }

  function Copies<T>(n: nat, x: T): (s: seq<T>)
    ensures |s| == n && forall i :: 0 <= i < n ==> s[i] == x
  {
    seq(n, i => x)
  }

  /** extstore_init: page 0 is never put on the free list. */
  function Init(cfg: Config): State
    requires cfg.Valid()
  {
    State(cfg,
          Copies(cfg.pageCount, EMPTY_PAGE),
          Copies(cfg.pageCount, Copies(cfg.pageSize, 0)),
          seq(cfg.pageCount - 1, i requires 0 <= i => i + 1),
          cfg.pageCount - 1,
          Copies(cfg.bucketCount, []),
          1, cfg.wbufCount, cfg.wbufCount, map[], map[],
          Copies(cfg.bucketCount, Idle), Sleeping, {}, {})
  }

  /** _allocate_page. */
  function AllocatePage(s: State, b: nat): State
    requires b < |s.buckets|
    requires s.pageFree > 0 ==> s.freelist != [] && s.freelist[0] < |s.pages|
  {
    if s.pageFree == 0 then s
    else
      var p := s.freelist[0];
      s.(freelist := s.freelist[1..],
         pageFree := s.pageFree - 1,
         buckets := s.buckets[b := [p] + s.buckets[b]],
         version := s.version + 1,
         pages := s.pages[p := s.pages[p].(active := true, free := false, closed := false, version := s.version,
           bucket := b)])
  }

  /** _allocate_wbuf. */
  function AllocateWbuf(s: State, p: nat): State
    requires p < |s.pages|
  {
    if s.wbufs == 0 then s
    else
      var pg := s.pages[p];
      SetPage(s, p, pg.(wbuf := Some(Wbuf(pg.reserved, [], false)), reserved := pg.reserved + s.cfg.wbufSize))
        .(wbufs := s.wbufs - 1)
  }

  function Pad(data: seq<byte>, size: nat): (r: seq<byte>)
    ensures |data| <= size ==> |r| == size && r[..|data|] == data
  {
    if |data| <= size then data + seq(size - |data|, i => 0) else data
  }

  /** _submit_wbuf followed by marking the buffer full. */
  function SubmitWbuf(s: State, p: nat): State
    requires p < |s.pages| && s.pages[p].wbuf.Some? && s.ios > 0
  {
    var w := s.pages[p].wbuf.value;
    SetPage(s, p, s.pages[p].(wbuf := Some(w.(full := true))))
      .(ios := s.ios - 1, pending := s.pending[p := WriteIo(w.offset, Pad(w.data, s.cfg.wbufSize), false)])
  }

  function FreeSpace(s: State, w: Wbuf): int {
    s.cfg.wbufSize - |w.data|
  }

  predicate PageFull(s: State, pg: Page) {
    !pg.active || ((pg.wbuf.None? || pg.wbuf.value.full) && pg.reserved >= s.cfg.pageSize)
  }

  predicate MustSubmit(s: State, pg: Page, len: nat) {
    pg.wbuf.Some? && FreeSpace(s, pg.wbuf.value) < len && !pg.wbuf.value.full
  }

  /** The page-locked part of extstore_write_request on a page that is not full. */
  function PrepareWbuf(s: State, p: nat, len: nat): State
    requires p < |s.pages|
    requires MustSubmit(s, s.pages[p], len) ==> s.ios > 0
  {
    var s1 := if MustSubmit(s, s.pages[p], len) then SubmitWbuf(s, p) else s;
    if s1.pages[p].wbuf.None? && s1.pages[p].reserved < s.cfg.pageSize then AllocateWbuf(s1, p) else s1
  }

  predicate Granted(s: State, p: nat, len: nat)
    requires p < |s.pages|
  {
    var w := s.pages[p].wbuf;
    w.Some? && !w.value.full && FreeSpace(s, w.value) >= len
  }

  function RemoveFrom(l: seq<nat>, p: nat): seq<nat> {
    if l == [] then [] else if l[0] == p then l[1..] else [l[0]] + RemoveFrom(l[1..], p)
  }

  /** _free_page. */
  function FreePage(s: State, p: nat): State
    requires p < |s.pages| && s.pages[p].bucket < |s.buckets|
  {
    var b := s.pages[p].bucket;
    s.(buckets := s.buckets[b := RemoveFrom(s.buckets[b], p)],
       freelist := [p] + s.freelist,
       pageFree := s.pageFree + 1,
       pages := s.pages[p := s.pages[p].(version := 0, objCount := 0, bytesUsed := 0, reserved := 0, written := 0,
                                         bucket := 0, active := false, closed := false, free := true)])
  }

  /** _wbuf_cb. */
  function FlushDone(s: State, p: nat): State
    requires p < |s.pages| && p in s.pending
  {
    var pg := s.pages[p];
    var written := pg.written + s.cfg.wbufSize;
    SetPage(s, p, pg.(written := written, wbuf := None, active := pg.active && written != s.cfg.pageSize))
      .(wbufs := s.wbufs + 1, ios := s.ios + 1, pending := s.pending - {p})
  }

  function Splice(f: seq<byte>, offset: nat, data: seq<byte>): (r: seq<byte>)
    requires offset + |data| <= |f|
    ensures |r| == |f|
  {
    f[..offset] + data + f[offset + |data|..]
  }

  predicate Readable(pg: Page, rec: Record) {
    !pg.free && !pg.closed && pg.version == rec.version
  }

  predicate InWbuf(pg: Page, rec: Record) {
    pg.active && rec.offset >= pg.written
  }

  function Saturating(a: nat, b: nat): nat {
    if a >= b then a - b else 0
  }

  function DeleteFrom(pg: Page, count: nat, bytes: nat): Page {
    pg.(bytesUsed := Saturating(pg.bytesUsed, bytes), objCount := Saturating(pg.objCount, count))
  }

  /** The maintenance thread holds the lock of page p. */
  predicate LookedAt(s: State, p: nat) {
    s.maint.Scanning? && s.maint.looking && s.maint.next == p
  }

  predicate Locked(s: State, p: nat) {
    LookedAt(s, p) || exists b :: 0 <= b < |s.writers| && s.writers[b].Holding? && s.writers[b].page == p
  }

  datatype Action =
    | Pick(b: nat)                       // extstore_write_request: find or allocate the bucket's page
    | Check(b: nat, len: nat)            // extstore_write_request under the page lock
    | Retry(b: nat)                      // extstore_write_request: page was full, allocate another
    | Commit(b: nat, bytes: seq<byte>)   // the caller's copy, then extstore_write
    | Pwrite(p: nat)                     // I/O thread writes a flush to the file
    | Flushed(p: nat)                    // _wbuf_cb
    | ReadBegin(id: nat, rec: Record)    // I/O thread looks at a read under the page lock
    | Pread(id: nat)                     // I/O thread reads the file, no lock held
    | ReadEnd(id: nat)                   // callback, then the reference is dropped
    | Delete(p: nat, version: nat, count: nat, nbytes: nat)
    | Close(p: nat, version: nat)
    | MaintWake
    | MaintLook                          // takes the page lock and reads active
    | MaintVisit                         // reads free, which an allocation may have changed since
    | MaintEvict

  predicate Enabled(s: State, a: Action) {
    match a
    case Pick(b) => b < |s.writers| && s.writers[b].Idle?
    case Check(b, len) =>
      b < |s.writers| && s.writers[b].Picked? && s.writers[b].page < |s.pages| && !Locked(s, s.writers[b].page)
    case Retry(b) => b < |s.writers| && s.writers[b].NeedPage?
    case Commit(b, bytes) => b < |s.writers| && s.writers[b].Holding? && |bytes| == s.writers[b].len
    case Pwrite(p) => p in s.pending && !s.pending[p].flushed
    case Flushed(p) => p in s.pending && s.pending[p].flushed && !Locked(s, p)
    case ReadBegin(id, rec) => rec in s.log && id !in s.readers && !Locked(s, rec.page)
    case Pread(id) => id in s.readers && s.readers[id].got.None?
    case ReadEnd(id) => id in s.readers && s.readers[id].got.Some? && !Locked(s, s.readers[id].rec.page)
    case Delete(p, version, count, bytes) => p < |s.pages| && !Locked(s, p)
    case Close(p, version) => p < |s.pages| && !Locked(s, p)
    case MaintWake => s.maint.Sleeping?
    case MaintLook => s.maint.Scanning? && !s.maint.looking && s.maint.next < |s.pages| && !Locked(s, s.maint.next)
    case MaintVisit => s.maint.Scanning? && s.maint.looking && s.maint.next < |s.pages|
    case MaintEvict =>
      s.maint.Scanning? && !s.maint.looking && s.maint.next >= |s.pages|
      && (s.maint.doEvict && s.maint.low.Some? ==> !Locked(s, s.maint.low.value))
  }

  /**
    Every assertion in the source that the action runs past, and every pointer it
    dereferences: these must hold whenever an action is taken.
   */
  predicate Asserts(s: State, a: Action) {
    match a
    case Pick(b) =>
      b < |s.buckets| && AllocateAsserts(s, b, s.buckets[b] != [])
    case Check(b, len) =>
      b < |s.writers| && s.writers[b].Picked?
      && var p := s.writers[b].page;
      p < |s.pages|
      && (!PageFull(s, s.pages[p]) && MustSubmit(s, s.pages[p], len) ==> s.ios > 0)
    case Retry(b) =>
      b < |s.buckets| && AllocateAsserts(s, b, false)
    case Commit(b, bytes) =>
      b < |s.writers| && s.writers[b].Holding? && s.writers[b].page < |s.pages|
      && s.pages[s.writers[b].page].wbuf.Some?
    case Pwrite(p) =>
      p in s.pending && p < |s.file| && s.pending[p].offset + |s.pending[p].data| <= |s.file[p]|
    case Flushed(p) =>
      p in s.pending && p < |s.pages| && s.pages[p].wbuf.Some?
      && s.pages[p].wbuf.value.offset == s.pending[p].offset == s.pages[p].written
    case ReadBegin(id, rec) =>
      rec.page < |s.pages|
      && var pg := s.pages[rec.page];
      (Readable(pg, rec) && InWbuf(pg, rec) ==>
        pg.wbuf.Some? && rec.offset < pg.written + s.cfg.wbufSize
        && pg.wbuf.value.offset <= rec.offset
        && rec.offset - pg.wbuf.value.offset + |rec.bytes| <= |pg.wbuf.value.data|)
    case Pread(id) =>
      id in s.readers && s.readers[id].rec.page < |s.file|
      && s.readers[id].rec.offset + |s.readers[id].rec.bytes| <= |s.file[s.readers[id].rec.page]|
    case ReadEnd(id) =>
      id in s.readers && s.readers[id].rec.page < |s.pages| && s.pages[s.readers[id].rec.page].refcount > 0
    case Delete(p, version, count, bytes) => true
    case Close(p, version) => true
    case MaintWake => true
    case MaintLook => true
    case MaintVisit =>
      s.maint.Scanning? && s.maint.next < |s.pages|
      && (!s.pages[s.maint.next].free ==> s.pages[s.maint.next].bucket < |s.buckets|)
    case MaintEvict =>
      s.maint.Scanning?
      && (s.maint.low.Some? ==> s.maint.low.value < |s.pages| && s.pages[s.maint.low.value].bucket < |s.buckets|)
  }

  /**
    A read of a record of no bytes that lies where a buffer ends: at the end of the
    attached one, or where none is attached.
   */
  predicate EmptyAtEnd(s: State, a: Action) {
    && a.ReadBegin? && a.rec.bytes == [] && a.rec.page < |s.pages|
    && var pg := s.pages[a.rec.page];
      Readable(pg, a.rec) && InWbuf(pg, a.rec) && (pg.wbuf.None? || a.rec.offset == pg.written + s.cfg.wbufSize)
  }

  predicate AllocateAsserts(s: State, b: nat, skip: bool)
    requires b < |s.buckets|
  {
    skip
    || (&& (s.buckets[b] == [] || (s.buckets[b][0] < |s.pages| && s.pages[s.buckets[b][0]].reserved == s.cfg.pageSize))
        && (s.pageFree > 0 ==> s.freelist != [] && s.freelist[0] < |s.pages|))
  }

  function Apply(s: State, a: Action): State
    requires Enabled(s, a) && Asserts(s, a)
  {
    match a
    case Pick(b) =>
      if s.buckets[b] != [] then s.(writers := s.writers[b := Picked(s.buckets[b][0])])
      else if s.pageFree == 0 then s
      else AllocatePage(s, b).(writers := s.writers[b := Picked(s.freelist[0])])
    case Check(b, len) =>
      var p := s.writers[b].page;
      if PageFull(s, s.pages[p]) then s.(writers := s.writers[b := NeedPage])
      else
        var s1 := PrepareWbuf(s, p, len);
        s1.(writers := s.writers[b := if Granted(s1, p, len) then Holding(p, len) else Idle])
    case Retry(b) =>
      AllocatePage(s, b).(writers := s.writers[b := Idle])
    case Commit(b, bytes) =>
      var p := s.writers[b].page;
      var pg := s.pages[p];
      var w := pg.wbuf.value;
      SetPage(s, p, pg.(wbuf := Some(w.(data := w.data + bytes)),
                        bytesUsed := pg.bytesUsed + |bytes|, objCount := pg.objCount + 1))
        .(writers := s.writers[b := Idle],
          log := s.log + {Record(p, pg.version, w.offset + |w.data|, bytes)})
    case Pwrite(p) =>
      s.(file := s.file[p := Splice(s.file[p], s.pending[p].offset, s.pending[p].data)],
         pending := s.pending[p := s.pending[p].(flushed := true)])
    case Flushed(p) => FlushDone(s, p)
    case ReadBegin(id, rec) =>
      var pg := s.pages[rec.page];
      if !Readable(pg, rec) then s.(delivered := s.delivered + {(rec, None)})
      else if InWbuf(pg, rec) then
        var at := rec.offset - pg.wbuf.value.offset;
        s.(delivered := s.delivered + {(rec, Some(pg.wbuf.value.data[at..at + |rec.bytes|]))})
      else
        SetPage(s, rec.page, pg.(refcount := pg.refcount + 1)).(readers := s.readers[id := Read(rec, None)])
    case Pread(id) =>
      var rec := s.readers[id].rec;
      s.(readers := s.readers[id := Read(rec, Some(s.file[rec.page][rec.offset..rec.offset + |rec.bytes|]))])
    case ReadEnd(id) =>
      var rec := s.readers[id].rec;
      var pg := s.pages[rec.page];
      SetPage(s, rec.page, pg.(refcount := pg.refcount - 1))
        .(readers := s.readers - {id}, delivered := s.delivered + {(rec, s.readers[id].got)})
    case Delete(p, version, count, bytes) =>
      if !s.pages[p].closed && s.pages[p].version == version
      then SetPage(s, p, DeleteFrom(s.pages[p], count, bytes))
      else s
    case Close(p, version) =>
      if !s.pages[p].closed && s.pages[p].version == version then SetPage(s, p, s.pages[p].(closed := true)) else s
    case MaintWake => s.(maint := Scanning(0, false, s.pageFree == 0, None, 0))
    case MaintLook =>
      if s.pages[s.maint.next].active then s.(maint := s.maint.(next := s.maint.next + 1))
        else s.(maint := s.maint.(looking := true))
    case MaintVisit => Visit(s, s.maint.next)
    case MaintEvict =>
      var s1 := s.(maint := Sleeping);
      if s.maint.doEvict && s.maint.low.Some? then Evict(s1, s.maint.low.value) else s1
  }

  /** One iteration of the maintenance loop, once the page was seen to be inactive. */
  function Visit(s: State, i: nat): State
    requires s.maint.Scanning? && i < |s.pages| && (!s.pages[i].free ==> s.pages[i].bucket < |s.buckets|)
  {
    var pg := s.pages[i];
    var m := s.maint.(next := i + 1, looking := false);
    if pg.free then s.(maint := m)
    else
      var m1 := if pg.objCount > 0 && !pg.closed && (m.low.None? || pg.version < m.lowVersion)
                then m.(low := Some(i), lowVersion := pg.version) else m;
      if (pg.objCount == 0 || pg.closed) && pg.refcount == 0
      then FreePage(s, i).(maint := m1.(doEvict := false))
      else s.(maint := m1)
  }

  /** The eviction at the end of a maintenance pass. */
  function Evict(s: State, p: nat): State
    requires p < |s.pages| && s.pages[p].bucket < |s.buckets|
  {
    if s.pages[p].closed then s
    else
      var s1 := SetPage(s, p, s.pages[p].(closed := true));
      if s.pages[p].refcount == 0 then FreePage(s1, p) else s1
  }
}

module ExtstoreInvariant {
  import opened ExtstoreTypes
  import opened ExtstoreSteps

  // ----- shape -----

  ghost predicate Shape(s: State) {
    && s.cfg.Valid()
    && |s.pages| == |s.file| == s.cfg.pageCount
    && |s.buckets| == |s.writers| == s.cfg.bucketCount
    && (forall p :: 0 <= p < |s.file| ==> |s.file[p]| == s.cfg.pageSize)
    && (forall p :: p in s.pending ==> 0 <= p < |s.pages|)
    && (forall r :: r in s.log ==> 0 <= r.page < |s.pages|)
    && s.version >= 1
  }

  // ----- pages and their buffers -----

  predicate FreePageOk(pg: Page) {
    pg.version == 0 && pg.refcount == 0 && pg.reserved == 0 && pg.written == 0 && pg.bucket == 0
    && pg.objCount == 0 && !pg.active && pg.wbuf.None?
  }

  /** A page just allocated, that no writer has locked yet. */
  predicate Fresh(pg: Page) {
    pg.refcount == 0 && pg.reserved == 0 && pg.objCount == 0 && pg.wbuf.None?
  }

  /** n is a whole number of buffers of size k. */
  predicate Multiple(n: nat, k: nat)
    requires k > 0
  {
    n == 0 || (n >= k && Multiple(n - k, k))
  }

  /** A page in use: it has a buffer exactly when the reserved space runs one buffer past the written space. */
  predicate UsedPageOk(cfg: Config, version: nat, pg: Page)
    requires cfg.wbufSize > 0
  {
    && 1 <= pg.version < version
    && pg.bucket < cfg.bucketCount
    && pg.written <= pg.reserved <= cfg.pageSize
    && Multiple(cfg.pageSize - pg.written, cfg.wbufSize)
    && (if pg.wbuf.Some? then
          && pg.reserved == pg.written + cfg.wbufSize
          && pg.wbuf.value.offset == pg.written
          && |pg.wbuf.value.data| <= cfg.wbufSize
          && pg.active
        else pg.reserved == pg.written)
    && (!pg.active ==> pg.written == cfg.pageSize)
  }

  predicate PageOk(cfg: Config, version: nat, pg: Page)
    requires cfg.wbufSize > 0
  {
    if pg.free then FreePageOk(pg) else UsedPageOk(cfg, version, pg)
  }

  ghost predicate PagesOk(s: State)
    requires Shape(s)
  {
    (forall p :: 0 <= p < |s.pages| ==> PageOk(s.cfg, s.version, s.pages[p]))
    && s.pages[0].free
  }

  // ----- free list and bucket lists -----

  predicate Distinct(l: seq<nat>) {
    forall i, j :: 0 <= i < j < |l| ==> l[i] != l[j]
  }

  ghost predicate ListsOk(s: State)
    requires Shape(s)
  {
    && Distinct(s.freelist)
    && s.pageFree == |s.freelist|
    && (forall p: nat :: p in s.freelist <==> 0 < p < |s.pages| && s.pages[p].free)
    && (forall b :: 0 <= b < |s.buckets| ==> BucketOk(s, b))
  }

  ghost predicate BucketOk(s: State, b: nat)
    requires b < |s.buckets|
  {
    && Distinct(s.buckets[b])
    && (forall p: nat :: p in s.buckets[b] <==> p < |s.pages| && !s.pages[p].free && s.pages[p].bucket == b)
  }

  /** Every page of a bucket but its head is full. */
  ghost predicate TailsFull(s: State)
    requires Shape(s)
  {
    forall b, i :: 0 <= b < |s.buckets| && 0 < i < |s.buckets[b]| ==>
      s.buckets[b][i] < |s.pages| && s.pages[s.buckets[b][i]].reserved == s.cfg.pageSize
  }

  // ----- writers -----

  /** The bucket may take a new page at its head. */
  predicate HeadFull(s: State, b: nat)
    requires b < |s.buckets|
  {
    s.buckets[b] == [] || (s.buckets[b][0] < |s.pages| && s.pages[s.buckets[b][0]].reserved == s.cfg.pageSize)
  }

  ghost predicate WritersOk(s: State)
    requires Shape(s)
  {
    && (forall b :: 0 <= b < |s.writers| && s.writers[b].Picked? ==>
          s.writers[b].page < |s.pages| && (HeadFull(s, b) || s.buckets[b][0] == s.writers[b].page))
    && (forall b :: 0 <= b < |s.writers| && s.writers[b].NeedPage? ==> HeadFull(s, b))
    && (forall b :: 0 <= b < |s.writers| && s.writers[b].Holding? ==>
          s.writers[b].page < |s.pages| && Granted(s, s.writers[b].page, s.writers[b].len))
    && (forall b, c :: 0 <= b < c < |s.writers| && s.writers[b].Holding? && s.writers[c].Holding? ==>
          s.writers[b].page != s.writers[c].page)
  }

  // ----- flushes in the I/O queue, and the two stacks -----

  ghost predicate PendingOk(s: State)
    requires Shape(s)
  {
    forall p :: 0 <= p < |s.pages| ==> FlushOk(s.cfg, s.pages[p], s.file[p], PendingAt(s, p))
  }

  /** A page has a flush in the queue exactly when its buffer is full, and the flush carries that buffer. */
  predicate FlushOk(cfg: Config, pg: Page, file: seq<byte>, io: Option<WriteIo>) {
    && (io.Some? <==> pg.wbuf.Some? && pg.wbuf.value.full)
    && (io.Some? ==>
          var w := pg.wbuf.value;
          && io.value.offset == w.offset
          && |w.data| <= cfg.wbufSize
          && io.value.data == Pad(w.data, cfg.wbufSize)
          && w.offset + cfg.wbufSize <= cfg.pageSize == |file|
          && (io.value.flushed ==> file[w.offset..w.offset + cfg.wbufSize] == io.value.data))
  }

  function PendingAt(s: State, p: nat): Option<WriteIo> {
    if p in s.pending then Some(s.pending[p]) else None
  }

  function Attached(s: State): set<nat> {
    set p | 0 <= p < |s.pages| && s.pages[p].wbuf.Some? :: p
  }

  ghost predicate StacksOk(s: State) {
    && s.wbufs + |Attached(s)| == s.cfg.wbufCount
    && s.ios + |s.pending| == s.cfg.wbufCount
  }

  // ----- contents -----

  /** The bytes of a record are in the file or in the page's buffer, on one side of the flush boundary. */
  ghost predicate RecordOk(s: State, r: Record)
    requires Shape(s) && r.page < |s.pages|
  {
    var pg := s.pages[r.page];
    !pg.free && pg.version == r.version ==>
      if r.offset < pg.written || pg.wbuf.None? then
        r.offset + |r.bytes| <= pg.written <= s.cfg.pageSize
        && s.file[r.page][r.offset..r.offset + |r.bytes|] == r.bytes
      else
        && pg.wbuf.value.offset == pg.written
        && r.offset - pg.written + |r.bytes| <= |pg.wbuf.value.data|
        && pg.wbuf.value.data[r.offset - pg.written..r.offset - pg.written + |r.bytes|] == r.bytes
  }

  ghost predicate LogOk(s: State)
    requires Shape(s)
  {
    forall r :: r in s.log ==> 1 <= r.version < s.version && RecordOk(s, r)
  }

  // ----- reads in flight -----

  function ReadsOf(s: State, p: nat): set<nat> {
    ReadsOn(s.readers, p)
  }

  function ReadsOn(readers: map<nat, Read>, p: nat): set<nat> {
    set id | id in readers && readers[id].rec.page == p
  }

  /** A read in flight keeps its page at the version it asked for, with the bytes already in the file. */
  ghost predicate ReadersOk(s: State)
    requires Shape(s)
  {
    && (forall id :: id in s.readers ==>
          var rec := s.readers[id].rec;
          && rec in s.log
          && !s.pages[rec.page].free
          && s.pages[rec.page].version == rec.version
          && rec.offset + |rec.bytes| <= s.pages[rec.page].written <= s.cfg.pageSize
          && (s.readers[id].got.Some? ==> s.readers[id].got.value == rec.bytes))
    && (forall p :: 0 <= p < |s.pages| ==> s.pages[p].refcount == |ReadsOf(s, p)|)
  }

  ghost predicate MaintOk(s: State)
    requires Shape(s)
  {
    && (s.maint.Scanning? && s.maint.low.Some? ==>
          s.maint.low.value < |s.pages| && s.maint.low.value < s.maint.next
          && !s.pages[s.maint.low.value].active && !s.pages[s.maint.low.value].free)
    && (s.maint.Scanning? && s.maint.looking ==> s.maint.next < |s.pages| && LookOk(s.pages[s.maint.next]))
  }

  /**
    The page that the maintenance thread has locked is inactive, or an allocation
    took it from the free list meanwhile.
   */
  predicate LookOk(pg: Page) {
    !pg.active || Fresh(pg)
  }

  /** What a caller sees: a delivered read carries exactly the bytes that were written, or is a miss. */
  ghost predicate DeliveredOk(s: State) {
    forall d :: d in s.delivered ==> d.1.Some? ==> d.1.value == d.0.bytes
  }

  ghost predicate Inv(s: State) {
    && Shape(s)
    && PagesOk(s)
    && ListsOk(s)
    && TailsFull(s)
    && WritersOk(s)
    && PendingOk(s)
    && StacksOk(s)
    && LogOk(s)
    && ReadersOk(s)
    && MaintOk(s)
    && DeliveredOk(s)
  }
}
