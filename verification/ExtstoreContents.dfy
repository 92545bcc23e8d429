/** What the store holds for a record, wherever its bytes are at the moment. */
module ExtstoreContents {
  import opened ExtstoreTypes
  import opened ExtstoreSteps
  import opened ExtstoreInvariant
  import opened ExtstoreProofs

  ghost function Lookup(s: State, r: Record): Option<seq<byte>>
    requires Inv(s) && r in s.log
  {
    assert RecordOk(s, r);
    var pg := s.pages[r.page];
    if !Readable(pg, r) then None
    else if r.offset < pg.written || pg.wbuf.None? then Some(s.file[r.page][r.offset..r.offset + |r.bytes|])
    else Some(pg.wbuf.value.data[r.offset - pg.written..r.offset - pg.written + |r.bytes|])
  }

  /**
    A record in the log is found, with its bytes, exactly as long as its page is in
    use, open, and of the same version.
   */
  lemma LookupIs(s: State, r: Record)
    requires Inv(s) && r in s.log
    ensures Lookup(s, r) == if Readable(s.pages[r.page], r) then Some(r.bytes) else None
  {
    assert RecordOk(s, r);
  }

  /** The records of s are found in t as in s. */
  ghost predicate SameContents(s: State, t: State) {
    Inv(s) && Inv(t) && s.log <= t.log && forall r :: r in s.log ==> Lookup(t, r) == Lookup(s, r)
  }

  /** No record of s is found in t that was not found in s, and those on other pages than p are found as in s. */
  ghost predicate SameOutside(s: State, t: State, p: nat) {
    && Inv(s) && Inv(t) && s.log <= t.log
    && forall r :: r in s.log ==> Lookup(t, r) == Lookup(s, r) || (r.page == p && Lookup(t, r) == None)
  }

  lemma ReadableKeeps(s: State, t: State)
    requires Inv(s) && Inv(t) && s.log <= t.log && |s.pages| == |t.pages|
    requires forall r :: r in s.log ==> Readable(t.pages[r.page], r) == Readable(s.pages[r.page], r)
    ensures SameContents(s, t)
  {
    hide Inv, Readable, Lookup;
    forall r | r in s.log
      ensures Lookup(t, r) == Lookup(s, r)
    {
      LookupIs(s, r);
      LookupIs(t, r);
    }
  }

  lemma ReadableOutside(s: State, t: State, p: nat)
    requires Inv(s) && Inv(t) && s.log <= t.log && |s.pages| == |t.pages|
    requires forall r :: r in s.log ==>
      Readable(t.pages[r.page], r) == Readable(s.pages[r.page], r) || (r.page == p && !Readable(t.pages[r.page], r))
    ensures SameOutside(s, t, p)
  {
    hide Inv, Readable, Lookup;
    forall r | r in s.log
      ensures Lookup(t, r) == Lookup(s, r) || (r.page == p && Lookup(t, r) == None)
    {
      LookupIs(s, r);
      LookupIs(t, r);
    }
  }

  // ----- what the actions do to the contents -----

  /** Allocations, writes, flushes and reads change where bytes are found, never whether or which. */
  lemma ContentsStay(s: State, a: Action)
    requires Inv(s) && Enabled(s, a) && Asserts(s, a) && !a.Close? && !a.MaintVisit? && !a.MaintEvict?
    ensures SameContents(s, Apply(s, a))
  {
    hide Inv, Enabled, Asserts, Apply, SameContents;
    var t := Apply(s, a);
    StepKeeps(s, a);
    if a.Pick? || a.Retry? {
      AllocateMarks(s, a);
    } else if a.Check? {
      CheckMarks(s, a);
    } else {
      OtherMarks(s, a);
    }
    forall r | r in s.log
      ensures r.page < |s.pages| && Readable(t.pages[r.page], r) == Readable(s.pages[r.page], r)
    {
      MarksReadable(s, t, r);
    }
    ReadableKeeps(s, t);
  }

  /** The pages keep version, closed and free marks, or one free page gets a version that no record has. */
  ghost predicate MarksStay(s: State, t: State) {
    && |t.pages| == |s.pages| && s.log <= t.log
    && forall p :: 0 <= p < |s.pages| ==>
      || (&& t.pages[p].version == s.pages[p].version && t.pages[p].closed == s.pages[p].closed
          && t.pages[p].free == s.pages[p].free)
      || (s.pages[p].free && t.pages[p].version == s.version)
  }

  lemma MarksReadable(s: State, t: State, r: Record)
    requires Inv(s) && MarksStay(s, t) && r in s.log
    ensures r.page < |s.pages| && Readable(t.pages[r.page], r) == Readable(s.pages[r.page], r)
  {
    hide PagesOk, ListsOk, TailsFull, WritersOk, PendingOk, StacksOk, ReadersOk, MaintOk, DeliveredOk;
  }

  lemma AllocateMarks(s: State, a: Action)
    requires Inv(s) && Enabled(s, a) && Asserts(s, a) && (a.Pick? || a.Retry?)
    ensures MarksStay(s, Apply(s, a))
  {
    hide PagesOk, TailsFull, WritersOk, PendingOk, StacksOk, LogOk, ReadersOk, MaintOk, DeliveredOk;
    if s.freelist != [] {
      assert s.freelist[0] in s.freelist;
    }
  }

  lemma CheckMarks(s: State, a: Action)
    requires Enabled(s, a) && Asserts(s, a) && a.Check?
    ensures MarksStay(s, Apply(s, a))
  {}

  lemma OtherMarks(s: State, a: Action)
    requires Enabled(s, a) && Asserts(s, a)
    requires !a.Pick? && !a.Retry? && !a.Check? && !a.Close? && !a.MaintVisit? && !a.MaintEvict?
    ensures MarksStay(s, Apply(s, a))
  {}

  /** Closing a page hides the records on it. */
  lemma CloseContents(s: State, p: nat, version: nat)
    requires Inv(s) && Enabled(s, Close(p, version))
    ensures SameOutside(s, Apply(s, Close(p, version)), p)
  {
    hide Inv, SameOutside;
    CloseKeeps(s, p, version);
    LogPages(s);
    ReadableOutside(s, Apply(s, Close(p, version)), p);
  }

  lemma LogPages(s: State)
    requires Inv(s)
    ensures forall r :: r in s.log ==> r.page < |s.pages|
  {}

  /** The scan frees at most the page it looks at. */
  lemma VisitContents(s: State)
    requires Inv(s) && Enabled(s, MaintVisit) && Asserts(s, MaintVisit)
    ensures SameOutside(s, Apply(s, MaintVisit), s.maint.next)
  {
    hide Inv, SameOutside;
    VisitKeeps(s);
    LogPages(s);
    ReadableOutside(s, Apply(s, MaintVisit), s.maint.next);
  }

  /** The eviction closes or frees at most the page it remembers. */
  lemma EvictContents(s: State)
    requires Inv(s) && Enabled(s, MaintEvict) && Asserts(s, MaintEvict)
    ensures SameOutside(s, Apply(s, MaintEvict), if s.maint.low.Some? then s.maint.low.value else 0)
  {
    hide Inv, SameOutside;
    EvictKeeps(s);
    LogPages(s);
    ReadableOutside(s, Apply(s, MaintEvict), if s.maint.low.Some? then s.maint.low.value else 0);
  }

  lemma StepLoses(s: State, a: Action, r: Record)
    requires Inv(s) && Enabled(s, a) && Asserts(s, a) && r in s.log
    ensures Inv(Apply(s, a)) && r in Apply(s, a).log
    ensures Lookup(Apply(s, a), r) == Lookup(s, r) || Lookup(Apply(s, a), r) == None
  {
    hide Inv, Enabled, Asserts, Apply, Lookup;
    if a.Close? {
      CloseContents(s, a.p, a.version);
    } else if a.MaintVisit? {
      VisitContents(s);
    } else if a.MaintEvict? {
      EvictContents(s);
    } else {
      ContentsStay(s, a);
    }
  }

  /**
    Over every run, a record that is lost to a close, a free or an eviction stays
    lost, however often its page is used again.
   */
  lemma {:induction false} LostForGood(cfg: Config, states: seq<State>, actions: seq<Action>, i: nat, j: nat, r: Record)
    requires IsRun(cfg, states, actions) && i <= j < |states|
    requires Inv(states[i]) && r in states[i].log && Lookup(states[i], r) == None
    ensures Inv(states[j]) && r in states[j].log && Lookup(states[j], r) == None
    decreases j
  {
    hide Inv, Enabled, Asserts, Apply, Lookup;
    if i < j {
      LostForGood(cfg, states, actions, i, j - 1, r);
      assert Step(states[j - 1], actions[j - 1], states[j]);
      StepLoses(states[j - 1], actions[j - 1], r);
    }
  }

  // ----- facts about single pages -----

  lemma GrantedInUse(s: State, b: nat)
    requires Inv(s) && b < |s.writers| && s.writers[b].Holding?
    ensures s.writers[b].page < |s.pages| && !s.pages[s.writers[b].page].free
  {
    hide ListsOk, TailsFull, PendingOk, StacksOk, LogOk, ReadersOk, MaintOk, DeliveredOk;
    assert Granted(s, s.writers[b].page, s.writers[b].len);
    assert PageOk(s.cfg, s.version, s.pages[s.writers[b].page]);
  }

  lemma BufferedIs(s: State, r: Record)
    requires Inv(s) && r in s.log
    ensures r.page < |s.pages|
    ensures var pg := s.pages[r.page];
      Readable(pg, r) && InWbuf(pg, r) && pg.wbuf.Some? ==>
        && pg.wbuf.value.offset == pg.written
        && r.offset - pg.written + |r.bytes| <= |pg.wbuf.value.data|
        && pg.wbuf.value.data[r.offset - pg.written..r.offset - pg.written + |r.bytes|] == r.bytes
  {
    hide PagesOk, ListsOk, TailsFull, WritersOk, PendingOk, StacksOk, ReadersOk, MaintOk, DeliveredOk;
    assert RecordOk(s, r);
  }

  lemma WrittenOut(s: State, p: nat)
    requires Inv(s) && p < |s.pages| && s.pages[p].wbuf.None?
    ensures forall r :: r in s.log && r.page == p && Readable(s.pages[p], r) ==>
      r.offset + |r.bytes| <= s.pages[p].written
  {
    hide PagesOk, ListsOk, TailsFull, WritersOk, PendingOk, StacksOk, ReadersOk, MaintOk, DeliveredOk;
    forall r | r in s.log && r.page == p
      ensures RecordOk(s, r)
    {
    }
  }

  lemma LowFacts(s: State)
    requires Inv(s) && s.maint.Scanning? && s.maint.low.Some?
    ensures s.maint.low.value < |s.pages| && !s.pages[s.maint.low.value].free
    ensures s.pages[s.maint.low.value].bucket < |s.buckets|
  {
    hide ListsOk, TailsFull, WritersOk, PendingOk, StacksOk, LogOk, ReadersOk, DeliveredOk;
    assert PageOk(s.cfg, s.version, s.pages[s.maint.low.value]);
  }

  // ----- when a write request is granted -----

  /**
    A page that takes no more, because it is finished or its last buffer is full,
    sends the writer for another one. Otherwise the request is granted exactly if the
    buffer has room, or if there is none and a new one can be had that is large
    enough. A buffer that is too full is sent to the file.
   */
  ghost predicate CheckAnswers(s: State, t: State, b: nat, p: nat, len: nat)
    requires p < |s.pages|
  {
    var pg := s.pages[p];
    var full := !pg.active || ((pg.wbuf.None? || pg.wbuf.value.full) && pg.reserved >= s.cfg.pageSize);
    var fits := pg.wbuf.Some? && !pg.wbuf.value.full && |pg.wbuf.value.data| + len <= s.cfg.wbufSize;
    var tooFull := pg.wbuf.Some? && !pg.wbuf.value.full && |pg.wbuf.value.data| + len > s.cfg.wbufSize;
    && b < |t.writers|
    && (t.writers[b] == NeedPage <==> full)
    && (t.writers[b] == Holding(p, len) <==>
          !full && (fits || (pg.wbuf.None? && s.wbufs > 0 && len <= s.cfg.wbufSize)))
    && (t.writers[b] == Idle <==> !full && t.writers[b] != Holding(p, len))
    && t.pending.Keys == (if !full && tooFull then s.pending.Keys + {p} else s.pending.Keys)
    && (!full && tooFull ==> t.pending[p].offset == pg.wbuf.value.offset && pg.wbuf.value.data <= t.pending[p].data)
  }

  lemma CheckEffect(s: State, b: nat, len: nat)
    requires Inv(s) && Enabled(s, Check(b, len)) && Asserts(s, Check(b, len))
    ensures CheckAnswers(s, Apply(s, Check(b, len)), b, s.writers[b].page, len)
  {
    hide Inv, Locked, PrepareWbuf, Granted, MustSubmit;
    var p := s.writers[b].page;
    BufferSize(s, p);
    if !PageFull(s, s.pages[p]) {
      PrepareEffect(s, p, len);
    }
  }

  lemma PrepareEffect(s: State, p: nat, len: nat)
    requires p < |s.pages| && (MustSubmit(s, s.pages[p], len) ==> s.ios > 0)
    requires s.pages[p].wbuf.Some? ==> |s.pages[p].wbuf.value.data| <= s.cfg.wbufSize
    ensures var pg, t := s.pages[p], PrepareWbuf(s, p, len);
      var open := pg.wbuf.Some? && !pg.wbuf.value.full;
      && |t.pages| == |s.pages| && t.writers == s.writers
      && (Granted(t, p, len) <==>
            || (open && |pg.wbuf.value.data| + len <= s.cfg.wbufSize)
            || (pg.wbuf.None? && pg.reserved < s.cfg.pageSize && s.wbufs > 0 && len <= s.cfg.wbufSize))
      && (if open && |pg.wbuf.value.data| + len > s.cfg.wbufSize then
            && t.pending.Keys == s.pending.Keys + {p}
            && t.pending[p].offset == pg.wbuf.value.offset && pg.wbuf.value.data <= t.pending[p].data
          else t.pending == s.pending)
  {}

  lemma BufferSize(s: State, p: nat)
    requires Inv(s) && p < |s.pages|
    ensures s.pages[p].wbuf.Some? ==> s.pages[p].active && |s.pages[p].wbuf.value.data| <= s.cfg.wbufSize
    ensures s.pages[p].wbuf.Some? ==> s.pages[p].written + s.cfg.wbufSize <= s.cfg.pageSize
  {
    hide ListsOk, TailsFull, WritersOk, PendingOk, StacksOk, LogOk, ReadersOk, MaintOk, DeliveredOk, Multiple;
    assert PageOk(s.cfg, s.version, s.pages[p]);
  }

  lemma PageAfterFlush(s: State, p: nat)
    requires Inv(s) && Enabled(s, Flushed(p)) && Asserts(s, Flushed(p))
    ensures var t := FlushDone(s, p);
      && p < |t.pages| && t.pages[p].written <= s.cfg.pageSize
      && (t.pages[p].active <==> t.pages[p].written < s.cfg.pageSize)
  {
    BufferSize(s, p);
    hide Inv, Locked;
  }
}
